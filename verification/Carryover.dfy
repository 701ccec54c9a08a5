// What part of a session's transcript goes into the model prompt.
module Carryover {
  import opened Prelude
  import opened Json
  import opened RuntimePolicy

  datatype Message = Message(role: string, content: string)

  // The context part of a run's policy, as it was handed over.
  type Policy = Members

  predicate Chat(m: Message) {
    m.role == "system" || m.role == "user" || m.role == "assistant"
  }

  // json::value on the normalised context
  function Limit(policy: Policy): (r: nat)
    ensures 1 <= r <= 200
  {
    var context := RuntimeContext(policy);
    if "historyLimit" in context && context["historyLimit"].Num? then context["historyLimit"].number else 30
  }

  function Mode(policy: Policy): (r: string)
    ensures KnownMode(r)
  {
    var context := RuntimeContext(policy);
    if "carryover" in context && context["carryover"].Str? then context["carryover"].text else "inherit"
  }

  // ------------------------------------------------------------------
  // The three policies, by their meaning

  function ChatOnly(history: seq<Message>): seq<Message> {
    if history == [] then []
    else ChatOnly(history[..|history| - 1]) + if Chat(history[|history| - 1]) then [history[|history| - 1]] else []
  }

  // How many messages of one class: the system ones, or the other chat messages.
  function CountClass(history: seq<Message>, system: bool): nat {
    if history == [] then 0
    else
      (if Chat(history[0]) && (history[0].role == "system") == system then 1 else 0)
      + CountClass(history[1..], system)
  }

  // Worth keeping in minimal mode: the last system message and the last three others.
  predicate Eligible(history: seq<Message>, i: nat)
    requires i < |history|
  {
    var system := history[i].role == "system";
    Chat(history[i]) && CountClass(history[i + 1..], system) < if system then 1 else 3
  }

  function EligibleFrom(history: seq<Message>, i: nat): seq<Message>
    requires i <= |history|
    decreases |history| - i
  {
    if i == |history| then []
    else (if Eligible(history, i) then [history[i]] else []) + EligibleFrom(history, i + 1)
  }

  function Pruned(history: seq<Message>, mode: string, limit: nat): seq<Message> {
    if mode == "none" then LastN(ChatOnly(history), 1)
    else if mode == "minimal" then LastN(EligibleFrom(history, 0), limit)
    else ChatOnly(history)
  }

  function Reversed<T>(s: seq<T>): (r: seq<T>)
    ensures |r| == |s| && forall i :: 0 <= i < |s| ==> r[i] == s[|s| - 1 - i]
  {
    if s == [] then [] else Reversed(s[1..]) + [s[0]]
  }

  // ------------------------------------------------------------------
  // The loops

  method ApplyCarryoverPolicy(history: seq<Message>, carryover: string, historyLimit: nat)
    returns (prompt: seq<Message>)
    ensures prompt == Pruned(history, carryover, historyLimit)
    ensures Follows(history, carryover, historyLimit, prompt)
  {
    PolicyMeaning(history, carryover, historyLimit);
    prompt := [];
    if carryover == "none" {
      var i := |history|;
      assert history[..i] == history;
      while i > 0
        invariant 0 <= i <= |history|
        invariant prompt == []
        invariant ChatOnly(history[..i]) == ChatOnly(history)
      {
        i := i - 1;
        assert history[..i + 1][..i] == history[..i];
        if Chat(history[i]) {
          prompt := prompt + [history[i]];
          return Reversed(prompt);
        }
      }
      return Reversed(prompt);
    }
    if carryover == "minimal" {
      prompt := KeepMinimal(history, historyLimit);
      return Reversed(prompt);
    }
    for i := 0 to |history|
      invariant prompt == ChatOnly(history[..i])
    {
      assert history[..i + 1][..i] == history[..i];
      if Chat(history[i]) {
        prompt := prompt + [history[i]];
      }
    }
    assert history[..|history|] == history;
  }

  // The backwards loop of minimal mode; the prompt grows from the newest message on.
  method KeepMinimal(history: seq<Message>, historyLimit: nat) returns (prompt: seq<Message>)
    ensures Reversed(prompt) == LastN(EligibleFrom(history, 0), historyLimit)
  {
    prompt := [];
    var keptNonSystem, keptSystem := 0, 0;
    var i := |history|;
    while i > 0 && |prompt| < historyLimit
      invariant 0 <= i <= |history|
      invariant |prompt| <= historyLimit
      invariant Reversed(prompt) == EligibleFrom(history, i)
      invariant keptSystem == Min(CountClass(history[i..], true), 1)
      invariant keptNonSystem == Min(CountClass(history[i..], false), 3)
      decreases i
    {
      i := i - 1;
      var m := history[i];
      assert history[i..][1..] == history[i + 1..];
      if m.role != "system" && m.role != "user" && m.role != "assistant" {
        continue;
      }
      if m.role == "system" {
        if keptSystem >= 1 {
          continue;
        }
        keptSystem := keptSystem + 1;
      } else {
        if keptNonSystem >= 3 {
          continue;
        }
        keptNonSystem := keptNonSystem + 1;
      }
      ReversedSnoc(prompt, m);
      prompt := prompt + [m];
    }
    EligibleSuffix(history, 0, i);
  }

  lemma ReversedSnoc<T>(s: seq<T>, x: T)
    ensures Reversed(s + [x]) == [x] + Reversed(s)
  {
  }

  // What was collected down to `i` is the end of the whole selection.
  lemma {:induction false} EligibleSuffix(history: seq<Message>, i: nat, j: nat)
    requires i <= j <= |history|
    ensures |EligibleFrom(history, i)| >= |EligibleFrom(history, j)|
    ensures EligibleFrom(history, i)[|EligibleFrom(history, i)| - |EligibleFrom(history, j)|..]
      == EligibleFrom(history, j)
    decreases j - i
  {
    if i < j {
      EligibleSuffix(history, i + 1, j);
      var head := if Eligible(history, i) then [history[i]] else [];
      var rest := EligibleFrom(history, i + 1);
      var k := |rest| - |EligibleFrom(history, j)|;
      assert (head + rest)[|head| + k..] == rest[k..];
    }
  }

  // ------------------------------------------------------------------
  // The prompt of one turn

  // loadMessages returns the newest `limit` lines of the transcript.
  function Prompt(systemPrompt: string, transcript: seq<Message>, policy: Policy): seq<Message> {
    [Message("system", systemPrompt)] + Pruned(LastN(transcript, Limit(policy)), Mode(policy), Limit(policy))
  }

  lemma {:induction false} ChatOnlySize(history: seq<Message>)
    ensures |ChatOnly(history)| <= |history|
    ensures (forall i :: 0 <= i < |history| ==> Chat(history[i])) ==> ChatOnly(history) == history
  {
    if history != [] {
      var n := |history| - 1;
      ChatOnlySize(history[..n]);
      assert history == history[..n] + [history[n]];
    }
  }

  lemma {:induction false} EligibleLast(history: seq<Message>, i: nat)
    requires history != [] && Chat(history[|history| - 1])
    requires i < |history|
    ensures EligibleFrom(history, i) != []
    ensures EligibleFrom(history, i)[|EligibleFrom(history, i)| - 1] == history[|history| - 1]
    decreases |history| - i
  {
    var rest := EligibleFrom(history, i + 1);
    if i < |history| - 1 {
      EligibleLast(history, i + 1);
    } else {
      assert history[i + 1..] == [];
    }
  }

  // Main result 1. Whatever the policy, the prompt opens with the system prompt, ends with
  // the message of the current turn, and carries at most historyLimit messages between
  // one and two hundred after the system prompt; in the default mode they are exactly the
  // newest ones when the transcript holds chat roles only.
  lemma PromptMeaning(systemPrompt: string, transcript: seq<Message>, policy: Policy)
    requires transcript != [] && Chat(transcript[|transcript| - 1])
    ensures
      var prompt := Prompt(systemPrompt, transcript, policy);
      && prompt[0] == Message("system", systemPrompt)
      && 2 <= |prompt| <= 1 + Limit(policy)
      && prompt[|prompt| - 1] == transcript[|transcript| - 1]
      && (Mode(policy) == "inherit" && (forall i :: 0 <= i < |transcript| ==> Chat(transcript[i])) ==>
            prompt[1..] == LastN(transcript, Limit(policy)))
  {
    var limit := Limit(policy);
    var history := LastN(transcript, limit);
    LastNKeepsEnd(transcript, limit);
    PrunedMeaning(history, Mode(policy), limit);
    var pruned := Pruned(history, Mode(policy), limit);
    assert Prompt(systemPrompt, transcript, policy)[1..] == pruned;
    if Mode(policy) == "inherit" && forall i :: 0 <= i < |transcript| ==> Chat(transcript[i]) {
      InheritKeepsAll(transcript, limit);
    }
  }

  lemma InheritKeepsAll(transcript: seq<Message>, limit: nat)
    requires forall i :: 0 <= i < |transcript| ==> Chat(transcript[i])
    ensures Pruned(LastN(transcript, limit), "inherit", limit) == LastN(transcript, limit)
  {
    LastNOf(transcript, limit);
    ChatOnlySize(LastN(transcript, limit));
  }

  lemma LastNOf<T>(s: seq<T>, n: nat)
    ensures forall i :: 0 <= i < |LastN(s, n)| ==> LastN(s, n)[i] == s[|s| - |LastN(s, n)| + i]
  {
  }

  lemma PrunedMeaning(history: seq<Message>, mode: string, limit: nat)
    requires history != [] && Chat(history[|history| - 1]) && |history| <= limit
    ensures
      var pruned := Pruned(history, mode, limit);
      1 <= |pruned| <= limit && pruned[|pruned| - 1] == history[|history| - 1]
  {
    if mode == "none" {
      NoneMeaning(history);
    } else if mode == "minimal" {
      EligibleLast(history, 0);
      LastNKeepsEnd(EligibleFrom(history, 0), limit);
    } else {
      ChatOnlySize(history);
      ChatOnlyLast(history);
    }
  }

  lemma NoneMeaning(history: seq<Message>)
    requires history != [] && Chat(history[|history| - 1])
    ensures LastN(ChatOnly(history), 1) == [history[|history| - 1]]
  {
    ChatOnlyLast(history);
    LastNKeepsEnd(ChatOnly(history), 1);
  }

  lemma LastNKeepsEnd<T>(s: seq<T>, n: nat)
    requires s != [] && n >= 1
    ensures 1 <= |LastN(s, n)| <= n && LastN(s, n)[|LastN(s, n)| - 1] == s[|s| - 1]
  {
  }

  lemma ChatOnlyLast(history: seq<Message>)
    requires history != [] && Chat(history[|history| - 1])
    ensures ChatOnly(history) != [] && ChatOnly(history)[|ChatOnly(history)| - 1] == history[|history| - 1]
  {
  }

  // In minimal mode at most one system message and three others survive.
  lemma {:induction false} MinimalIsSmall(history: seq<Message>, i: nat)
    requires i <= |history|
    ensures |EligibleFrom(history, i)|
      == Min(CountClass(history[i..], true), 1) + Min(CountClass(history[i..], false), 3)
    decreases |history| - i
  {
    if i < |history| {
      MinimalIsSmall(history, i + 1);
      assert history[i..][1..] == history[i + 1..];
    }
  }

  // ------------------------------------------------------------------
  // Each policy on the positions of the history

  ghost function SystemsAfter(history: seq<Message>, i: int): set<int> {
    set j | 0 <= j < |history| && i < j && history[j].role == "system"
  }

  ghost function OthersAfter(history: seq<Message>, i: int): set<int> {
    set j | 0 <= j < |history| && i < j && (history[j].role == "user" || history[j].role == "assistant")
  }

  // The last system message, or one of the last three of the user and the assistant.
  ghost predicate Recent(history: seq<Message>, i: nat)
    requires i < |history|
  {
    || (history[i].role == "system" && SystemsAfter(history, i) == {})
    || ((history[i].role == "user" || history[i].role == "assistant") && |OthersAfter(history, i)| < 3)
  }

  predicate Spoken(m: Message) {
    m.role == "system" || m.role == "user" || m.role == "assistant"
  }

  // The messages at these positions, in order.
  ghost predicate Picked(history: seq<Message>, out: seq<Message>, pos: seq<nat>) {
    Increasing(pos, |history|) && |pos| == |out| && forall k :: 0 <= k < |pos| ==> out[k] == history[pos[k]]
  }

  // The recent messages, the newest up to the limit.
  ghost predicate MinimalPick(history: seq<Message>, limit: nat, out: seq<Message>, pos: seq<nat>) {
    && Picked(history, out, pos)
    && |pos| == Min(limit, Min(1, |SystemsAfter(history, -1)|) + Min(3, |OthersAfter(history, -1)|))
    && (forall i :: i in pos ==> Recent(history, i))
    && (forall i :: 0 <= i < |history| && Recent(history, i) && i !in pos ==> |pos| == limit && Before(i, pos))
  }

  predicate Before(i: nat, pos: seq<nat>) {
    forall k :: 0 <= k < |pos| ==> i < pos[k]
  }

  ghost predicate InheritPick(history: seq<Message>, out: seq<Message>, pos: seq<nat>) {
    Picked(history, out, pos) && forall i :: 0 <= i < |history| ==> (i in pos <==> Spoken(history[i]))
  }

  // What a mode makes of a history: the last message, the recent ones, or all of them.
  ghost predicate Follows(history: seq<Message>, mode: string, limit: nat, out: seq<Message>) {
    if mode == "none" then
      if forall i :: 0 <= i < |history| ==> !Spoken(history[i]) then out == []
      else exists p :: LastSpoken(history, p) && out == [history[p]]
    else if mode == "minimal" then exists pos :: MinimalPick(history, limit, out, pos)
    else exists pos :: InheritPick(history, out, pos)
  }

  ghost predicate LastSpoken(history: seq<Message>, p: int) {
    0 <= p < |history| && Spoken(history[p]) && forall i :: p < i < |history| ==> !Spoken(history[i])
  }

  // Main result 2. The policies select what they are named for.
  lemma PolicyMeaning(history: seq<Message>, mode: string, limit: nat)
    ensures Follows(history, mode, limit, Pruned(history, mode, limit))
  {
    if mode == "none" {
      NonePicks(history);
    } else if mode == "minimal" {
      var pos := MinimalPicks(history, limit);
    } else {
      var pos := InheritPicks(history);
    }
  }

  lemma {:induction false} InheritPicks(history: seq<Message>) returns (pos: seq<nat>)
    ensures InheritPick(history, ChatOnly(history), pos)
  {
    if history == [] {
      pos := [];
    } else {
      var n := |history| - 1;
      var before := InheritPicks(history[..n]);
      pos := OneMoreMessage(history[..n], history[n], ChatOnly(history[..n]), before);
      assert history[..n] + [history[n]] == history;
    }
  }

  lemma OneMoreMessage(history: seq<Message>, last: Message, out: seq<Message>, before: seq<nat>)
    returns (pos: seq<nat>)
    requires InheritPick(history, out, before)
    ensures InheritPick(history + [last], out + if Chat(last) then [last] else [], pos)
  {
    pos := OneMoreAtEnd(before, |history|, Chat(last));
  }

  lemma NonePicks(history: seq<Message>)
    ensures Follows(history, "none", 0, LastN(ChatOnly(history), 1))
  {
    var pos := InheritPicks(history);
    var chat := ChatOnly(history);
    if pos == [] {
      assert forall i :: 0 <= i < |history| ==> i !in pos;
    } else {
      var p := pos[|pos| - 1];
      assert p in pos;
      forall i | p < i < |history|
        ensures i !in pos
      {
      }
      assert LastSpoken(history, p) && LastN(chat, 1) == [history[p]];
    }
  }

  // The counts of the loop are numbers of positions.
  lemma {:induction false} CountIsSize(history: seq<Message>, i: nat)
    requires i <= |history|
    ensures CountClass(history[i..], true) == |SystemsAfter(history, i - 1)|
    ensures CountClass(history[i..], false) == |OthersAfter(history, i - 1)|
    decreases |history| - i
  {
    if i == |history| {
      assert SystemsAfter(history, i - 1) == {} && OthersAfter(history, i - 1) == {};
    } else {
      CountIsSize(history, i + 1);
      assert history[i..][1..] == history[i + 1..];
      SystemsStep(history, i);
      OthersStep(history, i);
    }
  }

  lemma SystemsStep(history: seq<Message>, i: nat)
    requires i < |history|
    ensures |SystemsAfter(history, i - 1)| == |SystemsAfter(history, i)| + if history[i].role == "system" then 1 else 0
  {
    assert SystemsAfter(history, i - 1) == SystemsAfter(history, i) + if history[i].role == "system" then {i} else {};
  }

  lemma OthersStep(history: seq<Message>, i: nat)
    requires i < |history|
    ensures var other := history[i].role == "user" || history[i].role == "assistant";
      |OthersAfter(history, i - 1)| == |OthersAfter(history, i)| + if other then 1 else 0
  {
    var other := history[i].role == "user" || history[i].role == "assistant";
    assert OthersAfter(history, i - 1) == OthersAfter(history, i) + if other then {i} else {};
  }

  lemma EligibleIsRecent(history: seq<Message>, i: nat)
    requires i < |history|
    ensures Eligible(history, i) <==> Recent(history, i)
  {
    CountIsSize(history, i + 1);
  }

  // The positions from `from` on that minimal mode would keep without a limit.
  ghost predicate RecentFrom(history: seq<Message>, from: nat, out: seq<Message>, pos: seq<nat>) {
    && Picked(history, out, pos)
    && (forall i :: 0 <= i < |history| ==> (i in pos <==> from <= i && Recent(history, i)))
  }

  lemma {:induction false} RecentPicks(history: seq<Message>, from: nat) returns (pos: seq<nat>)
    requires from <= |history|
    ensures RecentFrom(history, from, EligibleFrom(history, from), pos)
    decreases |history| - from
  {
    if from == |history| {
      pos := [];
    } else {
      var rest := RecentPicks(history, from + 1);
      EligibleIsRecent(history, from);
      pos := OneMoreRecent(history, from, EligibleFrom(history, from + 1), rest);
    }
  }

  lemma OneMoreRecent(history: seq<Message>, from: nat, out: seq<Message>, rest: seq<nat>) returns (pos: seq<nat>)
    requires from < |history| && RecentFrom(history, from + 1, out, rest)
    ensures RecentFrom(history, from, (if Recent(history, from) then [history[from]] else []) + out, pos)
  {
    pos := (if Recent(history, from) then [from] else []) + rest;
    forall k | 0 <= k < |rest|
      ensures rest[k] > from
    {
      assert rest[k] in rest;
    }
  }

  lemma MinimalPicks(history: seq<Message>, limit: nat) returns (pos: seq<nat>)
    ensures MinimalPick(history, limit, LastN(EligibleFrom(history, 0), limit), pos)
  {
    var all := RecentPicks(history, 0);
    MinimalIsSmall(history, 0);
    CountIsSize(history, 0);
    assert history[0..] == history;
    pos := NewestOf(history, EligibleFrom(history, 0), all, limit);
  }

  lemma NewestOf(history: seq<Message>, out: seq<Message>, all: seq<nat>, limit: nat) returns (pos: seq<nat>)
    requires RecentFrom(history, 0, out, all)
    ensures Picked(history, LastN(out, limit), pos) && |pos| == Min(limit, |out|)
    ensures forall i :: i in pos ==> i < |history| && Recent(history, i)
    ensures forall i :: 0 <= i < |history| && Recent(history, i) && i !in pos ==> |pos| == limit && Before(i, pos)
  {
    pos := LastN(all, limit);
    var d := |all| - |pos|;
    assert forall k :: 0 <= k < |pos| ==> pos[k] == all[d + k];
    forall i | i in pos
      ensures i in all
    {
      var k :| 0 <= k < |pos| && pos[k] == i;
      assert all[d + k] == i;
    }
    forall i | 0 <= i < |history| && Recent(history, i) && i !in pos
      ensures |pos| == limit && Before(i, pos)
    {
      var k: nat :| k < |all| && all[k] == i;
      EndOfLastN(all, limit, k);
    }
  }

  lemma EndOfLastN<T>(s: seq<T>, n: nat, k: nat)
    requires k < |s|
    ensures k >= |s| - |LastN(s, n)| ==> s[k] in LastN(s, n)
  {
    var d := |s| - |LastN(s, n)|;
    if k >= d {
      assert LastN(s, n)[k - d] == s[k];
    }
  }

  // The limit and the mode a policy asks for.
  lemma AskedOfPolicy(policy: Policy)
    ensures
      var limit, mode := Obj(policy).At("historyLimit"), Obj(policy).At("carryover");
      && Limit(policy) == (if !limit.Num? then 30
                           else if limit.number < 1 then 1 else if limit.number > 200 then 200 else limit.number)
      && Mode(policy) == (if mode == Str("minimal") then "minimal" else if mode == Str("none") then "none"
                          else "inherit")
  {
    RuntimeContextMeaning(policy);
  }

  // The prompt is the system prompt and what the mode makes of the newest lines.
  lemma PromptFollows(systemPrompt: string, transcript: seq<Message>, policy: Policy)
    ensures
      var prompt, limit := Prompt(systemPrompt, transcript, policy), Limit(policy);
      && prompt != [] && prompt[0] == Message("system", systemPrompt)
      && Follows(LastN(transcript, limit), Mode(policy), limit, prompt[1..])
  {
    var limit := Limit(policy);
    PolicyMeaning(LastN(transcript, limit), Mode(policy), limit);
    AfterFirst(Message("system", systemPrompt), Pruned(LastN(transcript, limit), Mode(policy), limit));
  }

  lemma AfterFirst<T>(first: T, rest: seq<T>)
    ensures ([first] + rest)[1..] == rest
  {
  }
}
