// Turns of concurrent callers: the per-session mutex, the transcript they share, what the
// model is shown, and the cron notices that other code posts past the mutex.
module AgentTurns {
  import opened Prelude
  import opened Carryover
  import AgentEngine

  // One call of handleMessage; `number` tells calls apart.
  datatype Turn = Turn(number: nat, key: string, text: string, systemEvent: bool)

  // A transcript line, tagged with the turn that wrote it; a posted line has a number of
  // its own.
  datatype Line = Line(message: Message, turn: nat, posted: bool)

  // Where a caller stands. `mutex` is the pointer sessionMutex returned.
  datatype Caller =
    | Idle
    | Waiting(turn: Turn, mutex: nat)
    | Locked(turn: Turn, mutex: nat)
    | Ensured(turn: Turn, mutex: nat)
    | Asked(turn: Turn, mutex: nat)
    | Replied(turn: Turn, mutex: nat)

  datatype Sys = Sys(
    mutexes: map<string, nat>,
    owner: map<nat, nat>,
    callers: map<nat, Caller>,
    transcripts: map<string, seq<Line>>,
    turns: nat)

  datatype Step =
    | Begin(who: nat, key: string, text: string, systemEvent: bool)
    | TryLock(who: nat)
    | Busy(who: nat)
    | EnsureSession(who: nat)
    | Ask(who: nat)
    | Answer(who: nat, reply: string)
    | Throw(who: nat)
    | Unlock(who: nat)
    // a notice written straight to the store, without the session's mutex
    | Post(key: string, text: string)

  function Initial(): Sys {
    Sys(map[], map[], map[], map[], 0)
  }

  function Question(t: Turn): Line {
    Line(AgentEngine.Question(t.text, t.systemEvent), t.number, false)
  }

  function Reply(t: Turn, reply: string): Line {
    Line(Message("assistant", reply), t.number, false)
  }

  function Notice(text: string, number: nat): Line {
    Line(Message("system", text), number, true)
  }

  function At(s: Sys, who: nat): Caller {
    GetOr(s.callers, who, Idle)
  }

  function Appended(s: Sys, key: string, line: Line): map<string, seq<Line>> {
    s.transcripts[key := GetOr(s.transcripts, key, []) + [line]]
  }

  // One atomic step; a step that is not possible in the state changes nothing.
  function Apply(s: Sys, step: Step): Sys {
    var c := if step.Post? then Idle else At(s, step.who);
    match step
    case Post(key, text) => s.(transcripts := Appended(s, key, Notice(text, s.turns)), turns := s.turns + 1)
    case Begin(who, key, text, systemEvent) =>
      if !c.Idle? || key == "" then s
      else
        var m := AgentEngine.MutexOf(s.mutexes, key);
        s.(mutexes := s.mutexes[key := m], turns := s.turns + 1,
           callers := s.callers[who := Waiting(Turn(s.turns, key, text, systemEvent), m)])
    case TryLock(who) =>
      if !c.Waiting? || c.mutex in s.owner then s
      else s.(owner := s.owner[c.mutex := who], callers := s.callers[who := Locked(c.turn, c.mutex)])
    case Busy(who) =>
      // try_lock_for gave up
      if !c.Waiting? then s else s.(callers := s.callers[who := Idle])
    case EnsureSession(who) =>
      if !c.Locked? then s
      else s.(transcripts := s.transcripts[c.turn.key := GetOr(s.transcripts, c.turn.key, [])],
              callers := s.callers[who := Ensured(c.turn, c.mutex)])
    case Ask(who) =>
      if !c.Ensured? then s
      else s.(transcripts := Appended(s, c.turn.key, Question(c.turn)),
              callers := s.callers[who := Asked(c.turn, c.mutex)])
    case Answer(who, reply) =>
      if !c.Asked? then s
      else s.(transcripts := Appended(s, c.turn.key, Reply(c.turn, reply)),
              callers := s.callers[who := Replied(c.turn, c.mutex)])
    case Throw(who) =>
      // the model or a tool failed: the lock is released, nothing is appended
      if !c.Asked? then s else s.(owner := s.owner - {c.mutex}, callers := s.callers[who := Idle])
    case Unlock(who) =>
      if !c.Replied? then s else s.(owner := s.owner - {c.mutex}, callers := s.callers[who := Idle])
  }

  function Run(steps: seq<Step>): Sys {
    if steps == [] then Initial() else Apply(Run(steps[..|steps| - 1]), steps[|steps| - 1])
  }

  // ------------------------------------------------------------------
  // The invariant

  predicate IsAnswer(line: Line) {
    line.message.role == "assistant"
  }

  // Every assistant line directly follows the question of its own turn, and every other
  // line is a question.
  ghost predicate LinesOk(lines: seq<Line>) {
    forall i :: 0 <= i < |lines| ==> LineOk(lines, i)
  }

  predicate LineOk(lines: seq<Line>, i: nat)
    requires i < |lines|
  {
    IsAnswer(lines[i]) ==> i > 0 && !IsAnswer(lines[i - 1]) && lines[i - 1].turn == lines[i].turn
  }

  // One more line is right when it is no answer, or answers the last one.
  lemma LinesSnoc(lines: seq<Line>, line: Line)
    requires LinesOk(lines)
    ensures LinesOk(lines + [line]) <==>
      (IsAnswer(line) ==>
         lines != [] && !IsAnswer(lines[|lines| - 1]) && lines[|lines| - 1].turn == line.turn)
  {
    var all, n := lines + [line], |lines|;
    forall i | 0 <= i < n
      ensures LineOk(all, i)
    {
      assert LineOk(lines, i);
    }
    assert LineOk(all, n) <==>
      (IsAnswer(line) ==> n > 0 && !IsAnswer(lines[n - 1]) && lines[n - 1].turn == line.turn);
  }

  ghost predicate AllChat(lines: seq<Line>) {
    forall i :: 0 <= i < |lines| ==> Chat(lines[i].message)
  }

  // The lines that turns wrote.
  function Own(lines: seq<Line>): seq<Line> {
    if lines == [] then []
    else Own(lines[..|lines| - 1]) + if lines[|lines| - 1].posted then [] else [lines[|lines| - 1]]
  }

  lemma OwnSnoc(lines: seq<Line>, line: Line)
    ensures Own(lines + [line]) == Own(lines) + if line.posted then [] else [line]
  {
    assert (lines + [line])[..|lines|] == lines;
  }

  ghost predicate NonePosted(lines: seq<Line>) {
    forall i :: 0 <= i < |lines| ==> !lines[i].posted
  }

  lemma {:induction false} OwnIsAll(lines: seq<Line>)
    requires NonePosted(lines)
    ensures Own(lines) == lines
  {
    if lines != [] {
      OwnIsAll(lines[..|lines| - 1]);
    }
  }

  predicate Holds(c: Caller) {
    c.Locked? || c.Ensured? || c.Asked? || c.Replied?
  }

  ghost predicate CallerOk(s: Sys, who: nat) {
    var c := At(s, who);
    && (!c.Idle? ==> c.turn.key in s.mutexes && s.mutexes[c.turn.key] == c.mutex)
    && (Holds(c) ==> c.mutex in s.owner && s.owner[c.mutex] == who)
    && (c.Asked? ==> c.turn.key in s.transcripts && EndsIn(Own(s.transcripts[c.turn.key]), Question(c.turn)))
  }

  predicate EndsIn(lines: seq<Line>, line: Line) {
    lines != [] && lines[|lines| - 1] == line
  }

  ghost predicate TranscriptsOk(transcripts: map<string, seq<Line>>) {
    forall key :: key in transcripts ==> LinesOk(Own(transcripts[key])) && AllChat(transcripts[key])
  }

  lemma AppendKeepsTranscripts(s: Sys, key: string, line: Line)
    requires TranscriptsOk(s.transcripts) && Chat(line.message)
    requires line.posted || LinesOk(Own(GetOr(s.transcripts, key, [])) + [line])
    ensures TranscriptsOk(Appended(s, key, line))
  {
    forall k | k in Appended(s, key, line)
      ensures LinesOk(Own(Appended(s, key, line)[k])) && AllChat(Appended(s, key, line)[k])
    {
      if k == key {
        assert LinesOk(Own([]));
        AppendKeepsLines(GetOr(s.transcripts, key, []), line);
      }
    }
  }

  lemma AppendKeepsLines(lines: seq<Line>, line: Line)
    requires LinesOk(Own(lines)) && AllChat(lines) && Chat(line.message)
    requires line.posted || LinesOk(Own(lines) + [line])
    ensures LinesOk(Own(lines + [line])) && AllChat(lines + [line])
  {
    OwnSnoc(lines, line);
    if line.posted {
      assert Own(lines) + [] == Own(lines);
    }
  }

  ghost predicate Inv(s: Sys) {
    && AgentEngine.MutexesApart(s.mutexes)
    && (forall who: nat :: CallerOk(s, who))
    && TranscriptsOk(s.transcripts)
  }

  // Two callers inside the same session's section would own one mutex.
  lemma HoldersDiffer(s: Sys, a: nat, b: nat)
    requires Inv(s) && a != b && Holds(At(s, a)) && Holds(At(s, b))
    ensures At(s, a).turn.key != At(s, b).turn.key && At(s, a).mutex != At(s, b).mutex
  {
    assert CallerOk(s, a) && CallerOk(s, b);
  }

  lemma BeginKeepsInv(s: Sys, who: nat, key: string, text: string, systemEvent: bool)
    requires Inv(s)
    ensures Inv(Apply(s, Begin(who, key, text, systemEvent)))
  {
    if At(s, who).Idle? && key != "" {
      AgentEngine.MutexKeepsApart(s.mutexes, key);
      forall w: nat
        ensures CallerOk(Apply(s, Begin(who, key, text, systemEvent)), w)
      {
        BeginKeepsCaller(s, who, key, text, systemEvent, w);
      }
    }
  }

  lemma BeginKeepsCaller(s: Sys, who: nat, key: string, text: string, systemEvent: bool, w: nat)
    requires AgentEngine.MutexesApart(s.mutexes) && CallerOk(s, w)
    ensures CallerOk(Apply(s, Begin(who, key, text, systemEvent)), w)
  {
    AgentEngine.MutexKeepsApart(s.mutexes, key);
  }

  // Steps that append to the transcript of the session the caller has locked.
  lemma AppendKeepsInv(s: Sys, who: nat, line: Line, next: Caller)
    requires Inv(s) && Holds(At(s, who)) && Holds(next)
    requires next.turn == At(s, who).turn && next.mutex == At(s, who).mutex
    requires !line.posted && Chat(line.message)
    requires next.Asked? ==> line == Question(next.turn)
    requires LinesOk(Own(GetOr(s.transcripts, next.turn.key, [])) + [line])
    ensures Inv(s.(transcripts := Appended(s, next.turn.key, line), callers := s.callers[who := next]))
  {
    var s' := s.(transcripts := Appended(s, next.turn.key, line), callers := s.callers[who := next]);
    AppendKeepsTranscripts(s, next.turn.key, line);
    forall w: nat
      ensures CallerOk(s', w)
    {
      if w == who {
        AppenderOk(s, who, line, next);
      } else {
        BystanderOk(s, who, line, next, w);
      }
    }
  }

  lemma AppenderOk(s: Sys, who: nat, line: Line, next: Caller)
    requires CallerOk(s, who) && Holds(At(s, who)) && Holds(next)
    requires next.turn == At(s, who).turn && next.mutex == At(s, who).mutex
    requires !line.posted && (next.Asked? ==> line == Question(next.turn))
    ensures CallerOk(s.(transcripts := Appended(s, next.turn.key, line), callers := s.callers[who := next]), who)
  {
    OwnSnoc(GetOr(s.transcripts, next.turn.key, []), line);
  }

  lemma BystanderOk(s: Sys, who: nat, line: Line, next: Caller, w: nat)
    requires Inv(s) && Holds(At(s, who)) && w != who
    requires !next.Idle? && next.turn == At(s, who).turn
    ensures CallerOk(s.(transcripts := Appended(s, next.turn.key, line), callers := s.callers[who := next]), w)
  {
    assert CallerOk(s, w);
    if Holds(At(s, w)) {
      HoldersDiffer(s, w, who);
    }
  }

  lemma AskKeepsInv(s: Sys, who: nat)
    requires Inv(s)
    ensures Inv(Apply(s, Ask(who)))
  {
    var c := At(s, who);
    if c.Ensured? {
      assert LinesOk(Own([]));
      LinesSnoc(Own(GetOr(s.transcripts, c.turn.key, [])), Question(c.turn));
      AppendKeepsInv(s, who, Question(c.turn), Asked(c.turn, c.mutex));
    }
  }

  lemma AnswerKeepsInv(s: Sys, who: nat, reply: string)
    requires Inv(s)
    ensures Inv(Apply(s, Answer(who, reply)))
  {
    var c := At(s, who);
    if c.Asked? {
      assert CallerOk(s, who);
      AnswerFits(Own(s.transcripts[c.turn.key]), c.turn, reply);
      AppendKeepsInv(s, who, Reply(c.turn, reply), Replied(c.turn, c.mutex));
    }
  }

  lemma AnswerFits(lines: seq<Line>, t: Turn, reply: string)
    requires LinesOk(lines) && EndsIn(lines, Question(t))
    ensures LinesOk(lines + [Reply(t, reply)])
  {
    LinesSnoc(lines, Reply(t, reply));
  }

  // A notice adds nothing to what the turns wrote.
  lemma PostKeepsInv(s: Sys, key: string, text: string)
    requires Inv(s)
    ensures Inv(Apply(s, Post(key, text)))
  {
    AppendKeepsTranscripts(s, key, Notice(text, s.turns));
    forall w: nat
      ensures CallerOk(Apply(s, Post(key, text)), w)
    {
      PostKeepsCaller(s, key, text, w);
    }
  }

  lemma PostKeepsCaller(s: Sys, key: string, text: string, w: nat)
    requires CallerOk(s, w)
    ensures CallerOk(Apply(s, Post(key, text)), w)
  {
    OwnSnoc(GetOr(s.transcripts, key, []), Notice(text, s.turns));
  }

  // Releasing the mutex takes it from its owner only.
  lemma ReleaseKeepsInv(s: Sys, who: nat)
    requires Inv(s) && Holds(At(s, who))
    ensures Inv(s.(owner := s.owner - {At(s, who).mutex}, callers := s.callers[who := Idle]))
  {
    var s' := s.(owner := s.owner - {At(s, who).mutex}, callers := s.callers[who := Idle]);
    forall w: nat
      ensures CallerOk(s', w)
    {
      ReleaseKeepsCaller(s, who, w);
    }
  }

  lemma ReleaseKeepsCaller(s: Sys, who: nat, w: nat)
    requires Inv(s) && Holds(At(s, who))
    ensures CallerOk(s.(owner := s.owner - {At(s, who).mutex}, callers := s.callers[who := Idle]), w)
  {
    assert CallerOk(s, w);
    if w != who && Holds(At(s, w)) {
      HoldersDiffer(s, w, who);
    }
  }

  lemma StepKeepsInv(s: Sys, step: Step)
    requires Inv(s)
    ensures Inv(Apply(s, step))
  {
    var c := if step.Post? then Idle else At(s, step.who);
    match step
    case Post(key, text) => PostKeepsInv(s, key, text);
    case Begin(who, key, text, systemEvent) => BeginKeepsInv(s, who, key, text, systemEvent);
    case Ask(who) => AskKeepsInv(s, who);
    case Answer(who, reply) => AnswerKeepsInv(s, who, reply);
    case Throw(who) => if c.Asked? { ReleaseKeepsInv(s, who); }
    case Unlock(who) => if c.Replied? { ReleaseKeepsInv(s, who); }
    case TryLock(who) => QuietStepKeepsInv(s, step);
    case Busy(who) => QuietStepKeepsInv(s, step);
    case EnsureSession(who) => QuietStepKeepsInv(s, step);
  }

  lemma QuietStepKeepsInv(s: Sys, step: Step)
    requires Inv(s) && (step.TryLock? || step.Busy? || step.EnsureSession?)
    ensures Inv(Apply(s, step))
  {
    forall w: nat
      ensures CallerOk(Apply(s, step), w)
    {
      QuietStepKeepsCaller(s, step, w);
    }
  }

  lemma QuietStepKeepsCaller(s: Sys, step: Step, w: nat)
    requires step.TryLock? || step.Busy? || step.EnsureSession?
    requires CallerOk(s, w) && CallerOk(s, step.who)
    ensures CallerOk(Apply(s, step), w)
  {
  }

  // Main result 1. Under every interleaving of callers and notices, on any number of
  // sessions, what the turns wrote is a sequence of questions, each directly followed by its
  // answer or by none.
  lemma {:induction false} EveryAnswerFollowsItsQuestion(steps: seq<Step>)
    ensures Inv(Run(steps))
    ensures forall key :: key in Run(steps).transcripts ==> LinesOk(Own(Run(steps).transcripts[key]))
  {
    if steps == [] {
      assert forall who: nat :: CallerOk(Initial(), who);
    } else {
      EveryAnswerFollowsItsQuestion(steps[..|steps| - 1]);
      StepKeepsInv(Run(steps[..|steps| - 1]), steps[|steps| - 1]);
    }
  }

  // Notices go to these sessions only.
  ghost predicate OnlyTo(steps: seq<Step>, posted: set<string>) {
    forall i :: 0 <= i < |steps| && steps[i].Post? ==> steps[i].key in posted
  }

  lemma {:induction false} NothingPosted(steps: seq<Step>, posted: set<string>, key: string)
    requires OnlyTo(steps, posted) && key !in posted
    ensures NonePosted(GetOr(Run(steps).transcripts, key, []))
  {
    if steps != [] {
      var n := |steps| - 1;
      NothingPosted(steps[..n], posted, key);
      if steps[n].Post? {
        assert steps[n].key in posted;
      }
      StepPostsNothing(Run(steps[..n]), steps[n], key);
    }
  }

  lemma StepPostsNothing(s: Sys, step: Step, key: string)
    requires NonePosted(GetOr(s.transcripts, key, []))
    requires step.Post? ==> step.key != key
    ensures NonePosted(GetOr(Apply(s, step).transcripts, key, []))
  {
  }

  // So in a session without notices the transcript itself has that form.
  lemma TranscriptIsOk(steps: seq<Step>, posted: set<string>, key: string)
    requires OnlyTo(steps, posted) && key !in posted
    requires key in Run(steps).transcripts
    ensures LinesOk(Run(steps).transcripts[key])
  {
    EveryAnswerFollowsItsQuestion(steps);
    NothingPosted(steps, posted, key);
    OwnIsAll(Run(steps).transcripts[key]);
  }

  lemma RunSnoc(steps: seq<Step>, step: Step)
    ensures Run(steps + [step]) == Apply(Run(steps), step)
  {
    assert (steps + [step])[..|steps|] == steps;
  }

  // A turn with a notice between its question and what follows, and the state it leaves.
  function Interrupted(key: string): seq<Step> {
    [] + [Begin(0, key, "q", false)] + [TryLock(0)] + [EnsureSession(0)] + [Ask(0)] + [Post(key, "n")]
  }

  function OneCaller(key: string, owner: map<nat, nat>, c: Caller, transcripts: map<string, seq<Line>>,
                     turns: nat): Sys {
    Sys(map[key := 0], owner, map[0 := c], transcripts, turns)
  }

  lemma Locking(key: string, turn: Turn)
    requires turn == Turn(0, key, "q", false) && key != ""
    ensures Apply(Initial(), Begin(0, key, "q", false)) == OneCaller(key, map[], Waiting(turn, 0), map[], 1)
    ensures Apply(OneCaller(key, map[], Waiting(turn, 0), map[], 1), TryLock(0))
         == OneCaller(key, map[0 := 0], Locked(turn, 0), map[], 1)
  {
  }

  lemma Asking(key: string, turn: Turn, owner: map<nat, nat>)
    requires turn.key == key
    ensures Apply(OneCaller(key, owner, Locked(turn, 0), map[], 1), EnsureSession(0))
         == OneCaller(key, owner, Ensured(turn, 0), map[key := []], 1)
    ensures Apply(OneCaller(key, owner, Ensured(turn, 0), map[key := []], 1), Ask(0))
         == OneCaller(key, owner, Asked(turn, 0), map[key := [Question(turn)]], 1)
  {
    assert [] + [Question(turn)] == [Question(turn)];
    assert map[key := []][key := [Question(turn)]] == map[key := [Question(turn)]];
  }

  lemma Posting(key: string, turn: Turn, owner: map<nat, nat>)
    ensures Apply(OneCaller(key, owner, Asked(turn, 0), map[key := [Question(turn)]], 1), Post(key, "n"))
         == OneCaller(key, owner, Asked(turn, 0), map[key := [Question(turn), Notice("n", 1)]], 2)
  {
    var lines := [Question(turn), Notice("n", 1)];
    assert [Question(turn)] + [Notice("n", 1)] == lines;
    assert map[key := [Question(turn)]][key := lines] == map[key := lines];
  }

  function AfterNotice(key: string, turn: Turn): Sys {
    OneCaller(key, map[0 := 0], Asked(turn, 0), map[key := [Question(turn), Notice("n", 1)]], 2)
  }

  lemma InterruptedRun(key: string, turn: Turn)
    requires key != "" && turn == Turn(0, key, "q", false)
    ensures Run(Interrupted(key)) == AfterNotice(key, turn)
  {
    Locking(key, turn);
    Asking(key, turn, map[0 := 0]);
    Posting(key, turn, map[0 := 0]);
    var start: seq<Step> := [];
    RunSnoc(start, Begin(0, key, "q", false));
    var waiting := start + [Begin(0, key, "q", false)];
    RunSnoc(waiting, TryLock(0));
    var locked := waiting + [TryLock(0)];
    RunSnoc(locked, EnsureSession(0));
    var ensured := locked + [EnsureSession(0)];
    RunSnoc(ensured, Ask(0));
    var asked := ensured + [Ask(0)];
    RunSnoc(asked, Post(key, "n"));
    assert Interrupted(key) == asked + [Post(key, "n")];
  }

  lemma OnlyToKey(key: string, posted: set<string>, reply: string)
    requires key in posted
    ensures OnlyTo(Interrupted(key), posted) && OnlyTo(Interrupted(key) + [Answer(0, reply)], posted)
  {
  }

  // Main result 2. In the transcript itself every answer directly follows its question, over
  // all runs, exactly in the sessions that get no notices.
  lemma FollowsDirectlyExactly(key: string, posted: set<string>)
    requires key != ""
    ensures
      (forall steps :: OnlyTo(steps, posted) && key in Run(steps).transcripts ==> LinesOk(Run(steps).transcripts[key]))
        <==> key !in posted
  {
    if key !in posted {
      forall steps | OnlyTo(steps, posted) && key in Run(steps).transcripts
        ensures LinesOk(Run(steps).transcripts[key])
      {
        TranscriptIsOk(steps, posted, key);
      }
    } else {
      var steps := Interrupted(key) + [Answer(0, "a")];
      OnlyToKey(key, posted, "a");
      LateAnswer(key);
      assert !LinesOk(Run(steps).transcripts[key]);
    }
  }

  lemma LateAnswer(key: string)
    requires key != ""
    ensures var s := Run(Interrupted(key) + [Answer(0, "a")]);
      key in s.transcripts && !LinesOk(s.transcripts[key])
  {
    var turn := Turn(0, key, "q", false);
    InterruptedRun(key, turn);
    RunSnoc(Interrupted(key), Answer(0, "a"));
    var lines := Run(Interrupted(key) + [Answer(0, "a")]).transcripts[key];
    assert !LineOk(lines, 2);
  }

  // Main result 3. At most one caller is inside the section of a session.
  lemma OneTurnPerSession(steps: seq<Step>, a: nat, b: nat)
    requires Holds(At(Run(steps), a)) && Holds(At(Run(steps), b))
    requires At(Run(steps), a).turn.key == At(Run(steps), b).turn.key
    ensures a == b
  {
    EveryAnswerFollowsItsQuestion(steps);
    if a != b {
      HoldersDiffer(Run(steps), a, b);
    }
  }

  function Messages(lines: seq<Line>): (r: seq<Message>)
    ensures |r| == |lines| && forall i :: 0 <= i < |lines| ==> r[i] == lines[i].message
  {
    seq(|lines|, i requires 0 <= i < |lines| => lines[i].message)
  }

  // The prompt made of these lines begins with the system prompt, ends with the newest line,
  // and stays within the limit.
  ghost predicate PromptEndsWithLines(systemPrompt: string, lines: seq<Line>, policy: Policy) {
    var prompt := Prompt(systemPrompt, Messages(lines), policy);
    && prompt[0] == Message("system", systemPrompt)
    && 2 <= |prompt| <= 1 + Limit(policy)
    && lines != [] && prompt[|prompt| - 1] == lines[|lines| - 1].message
    && (Mode(policy) == "inherit" ==> prompt[1..] == LastN(Messages(lines), Limit(policy)))
  }

  lemma PromptOfLines(systemPrompt: string, lines: seq<Line>, policy: Policy)
    requires Own(lines) != [] && AllChat(lines)
    ensures PromptEndsWithLines(systemPrompt, lines, policy)
  {
    PromptMeaning(systemPrompt, Messages(lines), policy);
  }

  // Whenever a caller is about to consult the model, the last line any turn wrote to its
  // session is its own question, and the prompt ends with the newest line of the session,
  // question or notice.
  lemma PromptOfTurn(steps: seq<Step>, who: nat, systemPrompt: string, policy: Policy)
    requires At(Run(steps), who).Asked?
    ensures
      var s := Run(steps);
      var turn := At(s, who).turn;
      && turn.key in s.transcripts
      && EndsIn(Own(s.transcripts[turn.key]), Question(turn))
      && PromptEndsWithLines(systemPrompt, s.transcripts[turn.key], policy)
  {
    EveryAnswerFollowsItsQuestion(steps);
    var s := Run(steps);
    assert CallerOk(s, who);
    PromptOfLines(systemPrompt, s.transcripts[At(s, who).turn.key], policy);
  }

  // Main result 4. In a session without notices, whatever the other callers did since the
  // question was appended, the prompt ends with that question, begins with the system
  // prompt, and holds at most historyLimit messages after it.
  lemma PromptEndsWithTurn(steps: seq<Step>, posted: set<string>, who: nat, systemPrompt: string, policy: Policy)
    requires At(Run(steps), who).Asked?
    requires OnlyTo(steps, posted) && At(Run(steps), who).turn.key !in posted
    ensures
      var s := Run(steps);
      var turn := At(s, who).turn;
      turn.key in s.transcripts &&
      var transcript := Messages(s.transcripts[turn.key]);
      var prompt := Prompt(systemPrompt, transcript, policy);
      && prompt[0] == Message("system", systemPrompt)
      && 2 <= |prompt| <= 1 + Limit(policy)
      && prompt[|prompt| - 1] == Question(turn).message
      && (Mode(policy) == "inherit" ==> prompt[1..] == LastN(transcript, Limit(policy)))
  {
    PromptOfTurn(steps, who, systemPrompt, policy);
    var turn := At(Run(steps), who).turn;
    NothingPosted(steps, posted, turn.key);
    OwnIsAll(Run(steps).transcripts[turn.key]);
  }

  // The prompt of the turn that `who` is in ends with the message of that turn.
  ghost predicate EndsWithQuestion(steps: seq<Step>, who: nat, systemPrompt: string, policy: Policy)
    requires At(Run(steps), who).Asked?
  {
    var s := Run(steps);
    var turn := At(s, who).turn;
    turn.key in s.transcripts &&
    var prompt := Prompt(systemPrompt, Messages(s.transcripts[turn.key]), policy);
    prompt[|prompt| - 1] == Question(turn).message
  }

  // Again exactly in the sessions that get no notices, under any policy.
  lemma PromptEndsExactly(key: string, posted: set<string>, systemPrompt: string, policy: Policy)
    requires key != ""
    ensures
      (forall steps, who: nat ::
         OnlyTo(steps, posted) && At(Run(steps), who).Asked? && At(Run(steps), who).turn.key == key ==>
           EndsWithQuestion(steps, who, systemPrompt, policy))
        <==> key !in posted
  {
    if key !in posted {
      forall steps, who: nat | OnlyTo(steps, posted) && At(Run(steps), who).Asked? &&
          At(Run(steps), who).turn.key == key
        ensures EndsWithQuestion(steps, who, systemPrompt, policy)
      {
        PromptEndsWithTurn(steps, posted, who, systemPrompt, policy);
      }
    } else {
      OnlyToKey(key, posted, "a");
      InterruptedRun(key, Turn(0, key, "q", false));
      PromptOfTurn(Interrupted(key), 0, systemPrompt, policy);
      assert !EndsWithQuestion(Interrupted(key), 0, systemPrompt, policy);
    }
  }

  // ------------------------------------------------------------------
  // Turn numbers

  // Line `i` of a session is the question, or the notice, or the answer, with number `n`.
  predicate Labels(transcripts: map<string, seq<Line>>, key: string, i: int, answer: bool, n: nat) {
    && key in transcripts && 0 <= i < |transcripts[key]|
    && IsAnswer(transcripts[key][i]) == answer && transcripts[key][i].turn == n
  }

  ghost predicate Unlabelled(transcripts: map<string, seq<Line>>, answer: bool, n: nat) {
    forall key, i :: !Labels(transcripts, key, i, answer, n)
  }

  ghost predicate UniqueLabels(transcripts: map<string, seq<Line>>) {
    forall key, i, key', i', answer, n: nat ::
      Labels(transcripts, key, i, answer, n) && Labels(transcripts, key', i', answer, n) ==> key == key' && i == i'
  }

  // What a caller has still to write is not written yet.
  ghost predicate NumberOk(s: Sys, who: nat) {
    var c := At(s, who);
    && (!c.Idle? ==> c.turn.number < s.turns)
    && (c.Waiting? || c.Locked? || c.Ensured? ==> Unlabelled(s.transcripts, false, c.turn.number))
    && (c.Waiting? || c.Locked? || c.Ensured? || c.Asked? ==> Unlabelled(s.transcripts, true, c.turn.number))
  }

  predicate PairOk(s: Sys, a: nat, b: nat) {
    a != b && !At(s, a).Idle? && !At(s, b).Idle? ==> At(s, a).turn.number != At(s, b).turn.number
  }

  ghost predicate NumbersOk(s: Sys) {
    && (forall who: nat :: NumberOk(s, who))
    && (forall a: nat, b: nat :: PairOk(s, a, b))
    && (forall key, i, answer, n: nat :: Labels(s.transcripts, key, i, answer, n) ==> n < s.turns)
    && UniqueLabels(s.transcripts)
  }

  // Appending adds one label.
  lemma AppendedLabels(s: Sys, key: string, line: Line, k: string, i: int, answer: bool, n: nat)
    ensures Labels(Appended(s, key, line), k, i, answer, n) <==>
      || Labels(s.transcripts, k, i, answer, n)
      || (k == key && i == |GetOr(s.transcripts, key, [])| && answer == IsAnswer(line) && n == line.turn)
  {
  }

  // A caller writes its question or its answer and moves on.
  lemma AppendKeepsNumbers(s: Sys, who: nat, line: Line, next: Caller)
    requires NumbersOk(s)
    requires var c := At(s, who); !c.Idle? && !next.Idle? && next.turn == c.turn && line.turn == c.turn.number
    requires Unlabelled(s.transcripts, IsAnswer(line), line.turn)
    requires next.Asked? || next.Replied?
    requires next.Asked? ==> !IsAnswer(line) && Unlabelled(s.transcripts, true, line.turn)
    ensures NumbersOk(s.(transcripts := Appended(s, next.turn.key, line), callers := s.callers[who := next]))
  {
    var s' := s.(transcripts := Appended(s, next.turn.key, line), callers := s.callers[who := next]);
    assert NumberOk(s, who);
    forall k, i, answer, n: nat
      ensures Labels(s'.transcripts, k, i, answer, n) <==>
        || Labels(s.transcripts, k, i, answer, n)
        || (k == next.turn.key && i == |GetOr(s.transcripts, next.turn.key, [])|
            && answer == IsAnswer(line) && n == line.turn)
    {
      AppendedLabels(s, next.turn.key, line, k, i, answer, n);
    }
    forall w: nat
      ensures NumberOk(s', w)
    {
      assert NumberOk(s, w) && PairOk(s, w, who);
    }
    forall a: nat, b: nat
      ensures PairOk(s', a, b)
    {
      assert PairOk(s, a, b);
    }
  }

  lemma BeginKeepsNumbers(s: Sys, who: nat, key: string, text: string, systemEvent: bool)
    requires NumbersOk(s)
    ensures NumbersOk(Apply(s, Begin(who, key, text, systemEvent)))
  {
    var s' := Apply(s, Begin(who, key, text, systemEvent));
    forall w: nat
      ensures NumberOk(s', w)
    {
      assert NumberOk(s, w);
    }
    forall a: nat, b: nat
      ensures PairOk(s', a, b)
    {
      assert PairOk(s, a, b) && NumberOk(s, a) && NumberOk(s, b);
    }
  }

  lemma PostKeepsNumbers(s: Sys, key: string, text: string)
    requires NumbersOk(s)
    ensures NumbersOk(Apply(s, Post(key, text)))
  {
    var s' := Apply(s, Post(key, text));
    var line := Notice(text, s.turns);
    forall k, i, answer, n: nat
      ensures Labels(s'.transcripts, k, i, answer, n) <==>
        || Labels(s.transcripts, k, i, answer, n)
        || (k == key && i == |GetOr(s.transcripts, key, [])| && answer == false && n == s.turns)
    {
      AppendedLabels(s, key, line, k, i, answer, n);
    }
    forall w: nat
      ensures NumberOk(s', w)
    {
      assert NumberOk(s, w);
    }
    forall a: nat, b: nat
      ensures PairOk(s', a, b)
    {
      assert PairOk(s, a, b);
    }
  }

  // Steps that write no line and begin no turn.
  lemma SilentStepKeepsNumbers(s: Sys, step: Step)
    requires NumbersOk(s) && !step.Begin? && !step.Ask? && !step.Answer? && !step.Post?
    ensures NumbersOk(Apply(s, step))
  {
    var s' := Apply(s, step);
    assert NumberOk(s, step.who);
    forall k, i, answer, n: nat
      ensures Labels(s'.transcripts, k, i, answer, n) <==> Labels(s.transcripts, k, i, answer, n)
    {
    }
    forall w: nat
      ensures NumberOk(s', w)
    {
      assert NumberOk(s, w);
    }
    forall a: nat, b: nat
      ensures PairOk(s', a, b)
    {
      assert PairOk(s, a, b);
    }
  }

  lemma StepKeepsNumbers(s: Sys, step: Step)
    requires NumbersOk(s)
    ensures NumbersOk(Apply(s, step))
  {
    var c := if step.Post? then Idle else At(s, step.who);
    if !step.Post? {
      assert NumberOk(s, step.who);
    }
    match step
    case Post(key, text) => PostKeepsNumbers(s, key, text);
    case Begin(who, key, text, systemEvent) => BeginKeepsNumbers(s, who, key, text, systemEvent);
    case Ask(who) =>
      if c.Ensured? {
        AppendKeepsNumbers(s, who, Question(c.turn), Asked(c.turn, c.mutex));
      }
    case Answer(who, reply) =>
      if c.Asked? {
        AppendKeepsNumbers(s, who, Reply(c.turn, reply), Replied(c.turn, c.mutex));
      }
    case _ => SilentStepKeepsNumbers(s, step);
  }

  // Main result 5. Over every run a number labels at most one question or notice and at most
  // one answer in all the transcripts together, so an answer belongs to one question.
  lemma {:induction false} TurnsAreUnique(steps: seq<Step>)
    ensures NumbersOk(Run(steps))
    ensures UniqueLabels(Run(steps).transcripts)
  {
    if steps == [] {
      assert forall who: nat :: NumberOk(Initial(), who);
    } else {
      TurnsAreUnique(steps[..|steps| - 1]);
      StepKeepsNumbers(Run(steps[..|steps| - 1]), steps[|steps| - 1]);
    }
  }

  // Main result 6. Transcripts only grow, and a turn that timed out waiting writes nothing.
  lemma StepOnlyAppends(s: Sys, step: Step, key: string)
    ensures GetOr(s.transcripts, key, []) <= GetOr(Apply(s, step).transcripts, key, [])
    ensures step.Busy? || step.Begin? || step.TryLock? || step.Throw? ==> Apply(s, step).transcripts == s.transcripts
  {
  }

  lemma {:induction false} TranscriptsOnlyGrow(steps: seq<Step>, more: seq<Step>, key: string)
    ensures GetOr(Run(steps).transcripts, key, []) <= GetOr(Run(steps + more).transcripts, key, [])
  {
    if more == [] {
      assert steps + more == steps;
    } else {
      var n := |more| - 1;
      var before := steps + more[..n];
      TranscriptsOnlyGrow(steps, more[..n], key);
      RunOnlyAppends(before, more[n], key);
      assert steps + more == before + [more[n]];
    }
  }

  lemma RunOnlyAppends(steps: seq<Step>, step: Step, key: string)
    ensures GetOr(Run(steps).transcripts, key, []) <= GetOr(Run(steps + [step]).transcripts, key, [])
  {
    RunSnoc(steps, step);
    StepOnlyAppends(Run(steps), step, key);
  }

  // ------------------------------------------------------------------
  // Where the lines come from

  // What one step appends to the transcript of `key`.
  ghost predicate Adds(s: Sys, step: Step, key: string, line: Line) {
    match step
    case Post(k, text) => k == key && line == Line(Message("system", text), s.turns, true)
    case Ask(who) =>
      && At(s, who).Ensured? && At(s, who).turn.key == key
      && var t := At(s, who).turn;
        line == Line(Message(if t.systemEvent then "system" else "user", t.text), t.number, false)
    case Answer(who, reply) =>
      && At(s, who).Asked? && At(s, who).turn.key == key
      && line == Line(Message("assistant", reply), At(s, who).turn.number, false)
    case _ => false
  }

  // A step appends one line to one transcript, or nothing to any.
  lemma StepLines(s: Sys, step: Step, key: string)
    ensures
      var before, after := GetOr(s.transcripts, key, []), GetOr(Apply(s, step).transcripts, key, []);
      after == before || (|after| == |before| + 1 && before <= after && Adds(s, step, key, after[|before|]))
    ensures forall line :: Adds(s, step, key, line) ==>
      GetOr(Apply(s, step).transcripts, key, []) == GetOr(s.transcripts, key, []) + [line]
  {
  }

  // The call a turn stands for.
  ghost predicate Begun(steps: seq<Step>, j: int, who: nat, t: Turn) {
    && 0 <= j < |steps| && steps[j] == Begin(who, t.key, t.text, t.systemEvent)
    && t.number == Run(steps[..j]).turns
  }

  // The step that gave a line its text.
  ghost predicate Written(steps: seq<Step>, j: int, key: string, line: Line) {
    && 0 <= j < |steps|
    && match steps[j]
       case Post(k, text) => k == key && line == Line(Message("system", text), Run(steps[..j]).turns, true)
       case Begin(who, k, text, systemEvent) =>
         k == key &&
         line == Line(Message(if systemEvent then "system" else "user", text), Run(steps[..j]).turns, false)
       case Answer(who, reply) => Adds(Run(steps[..j]), steps[j], key, line)
       case _ => false
  }

  lemma LaterToo(steps: seq<Step>, step: Step, j: int, who: nat, t: Turn, key: string, line: Line)
    ensures Begun(steps, j, who, t) ==> Begun(steps + [step], j, who, t)
    ensures Written(steps, j, key, line) ==> Written(steps + [step], j, key, line)
  {
    if 0 <= j < |steps| {
      assert (steps + [step])[..j] == steps[..j];
    }
  }

  // Over every run, who is in a call carries the turn of a call it made.
  lemma {:induction false} CallersHaveCalls(steps: seq<Step>, who: nat) returns (j: int)
    requires !At(Run(steps), who).Idle?
    ensures Begun(steps, j, who, At(Run(steps), who).turn)
  {
    var n := |steps| - 1;
    var before, step := steps[..n], steps[n];
    assert before + [step] == steps;
    if !At(Run(before), who).Idle? && At(Run(before), who).turn == At(Run(steps), who).turn {
      j := CallersHaveCalls(before, who);
      LaterToo(before, step, j, who, At(Run(steps), who).turn, "", Notice("", 0));
    } else {
      j := n;
    }
  }

  // Main result 7. Every line of every transcript has its step: a notice that was posted
  // there, a call with that text on that session, or an answer to a question asked there.
  lemma {:induction false} EveryLineHasItsStep(steps: seq<Step>, key: string, i: nat) returns (j: int)
    requires i < |GetOr(Run(steps).transcripts, key, [])|
    ensures Written(steps, j, key, GetOr(Run(steps).transcripts, key, [])[i])
  {
    var n := |steps| - 1;
    var before, step := steps[..n], steps[n];
    assert before + [step] == steps;
    var s := Run(before);
    var line := GetOr(Run(steps).transcripts, key, [])[i];
    StepLines(s, step, key);
    if i < |GetOr(s.transcripts, key, [])| {
      j := EveryLineHasItsStep(before, key, i);
      LaterToo(before, step, j, 0, Turn(0, "", "", false), key, line);
    } else {
      j := LineOfStep(before, step, key, line);
    }
  }

  lemma LineOfStep(before: seq<Step>, step: Step, key: string, line: Line) returns (j: int)
    requires Adds(Run(before), step, key, line)
    ensures Written(before + [step], j, key, line)
  {
    assert (before + [step])[..|before|] == before;
    if step.Ask? {
      j := CallersHaveCalls(before, step.who);
      var t := At(Run(before), step.who).turn;
      assert Written(before, j, key, line);
      LaterToo(before, step, j, step.who, t, key, line);
    } else {
      j := |before|;
    }
  }
}
