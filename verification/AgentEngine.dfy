// handleMessage: one turn against the session store, and the map of session mutexes.
module AgentEngine {
  import opened Prelude
  import opened Carryover
  import opened SessionStore

  // How the model, or a command, came back.
  datatype Outcome = Replied(text: string) | Failed

  // What the caller of handleMessage sees.
  datatype Result = KeyRequired | Answer(text: string) | Raised

  function Question(text: string, systemEvent: bool): Message {
    Message(if systemEvent then "system" else "user", text)
  }

  predicate IsCommand(text: string, systemEvent: bool) {
    !systemEvent && text != "" && text[0] == '/'
  }

  // The lines one turn adds to its transcript.
  function TurnLines(text: string, systemEvent: bool, outcome: Outcome): seq<Message> {
    [Question(text, systemEvent)] + if outcome.Replied? then [Message("assistant", outcome.text)] else []
  }

  lemma TurnGrows(before: seq<Message>, text: string, systemEvent: bool, reply: string)
    ensures before + [Question(text, systemEvent)] == before + TurnLines(text, systemEvent, Failed)
    ensures before + [Question(text, systemEvent)] + [Message("assistant", reply)]
      == before + TurnLines(text, systemEvent, Replied(reply))
  {
  }

  predicate TurnShown(was: seq<Message>, lines: seq<Message>, text: string, systemEvent: bool, outcome: Outcome) {
    && |lines| == |was| + (if outcome.Replied? then 2 else 1) && was == lines[..|was|]
    && lines[|was|] == Message(if systemEvent then "system" else "user", text)
    && (outcome.Replied? ==> lines[|was| + 1] == Message("assistant", outcome.text))
  }

  lemma TurnMeaning(was: seq<Message>, text: string, systemEvent: bool, outcome: Outcome)
    ensures TurnShown(was, was + TurnLines(text, systemEvent, outcome), text, systemEvent, outcome)
  {
  }

  // sessionMutexes_: the mutex of each key, by number; no two sessions share one.
  ghost predicate MutexesApart(mutexes: map<string, nat>) {
    && (forall a, b :: a in mutexes && b in mutexes && a != b ==> mutexes[a] != mutexes[b])
    && (forall key :: key in mutexes ==> mutexes[key] < |mutexes|)
  }

  // sessionMutex: the mutex of the key, or a new one.
  function MutexOf(mutexes: map<string, nat>, key: string): nat {
    if key in mutexes then mutexes[key] else |mutexes|
  }

  // Looking a mutex up changes nothing; a new one differs from all others.
  lemma MutexKeepsApart(mutexes: map<string, nat>, key: string)
    requires MutexesApart(mutexes)
    ensures MutexesApart(mutexes[key := MutexOf(mutexes, key)])
    ensures forall k :: k in mutexes ==> mutexes[key := MutexOf(mutexes, key)][k] == mutexes[k]
  {
    if key in mutexes {
      assert mutexes[key := mutexes[key]] == mutexes;
    } else {
      assert |mutexes[key := |mutexes|]| == |mutexes| + 1;
    }
  }

  class Engine {
    const store: Store
    const systemPrompt: string
    var mutexes: map<string, nat>

    constructor (store: Store, systemPrompt: string)
      ensures this.store == store && this.systemPrompt == systemPrompt
      ensures MutexesApart(mutexes) && mutexes == map[]
    {
      this.store := store;
      this.systemPrompt := systemPrompt;
      mutexes := map[];
    }

    method SessionMutex(key: string) returns (mutex: nat)
      requires MutexesApart(mutexes)
      modifies this
      ensures MutexesApart(mutexes)
      ensures key in mutexes && mutexes[key] == mutex
      ensures forall k :: k in old(mutexes) ==> k in mutexes && mutexes[k] == old(mutexes)[k]
      ensures forall k :: k in mutexes ==> k == key || k in old(mutexes)
    {
      MutexKeepsApart(mutexes, key);
      if key in mutexes {
        return mutexes[key];
      }
      mutex := |mutexes|;
      mutexes := mutexes[key := mutex];
    }

    // System prompt and pruned transcript of a session.
    method BuildPrompt(key: string, policy: Policy) returns (prompt: seq<Message>)
      ensures prompt == Prompt(systemPrompt, store.Transcript(key), policy)
      ensures prompt != [] && prompt[0] == Message("system", systemPrompt)
      ensures Follows(LastN(store.Transcript(key), Limit(policy)), Mode(policy), Limit(policy), prompt[1..])
    {
      PromptFollows(systemPrompt, store.Transcript(key), policy);
      prompt := [Message("system", systemPrompt)];
      var history := store.LoadMessages(key, Limit(policy));
      var pruned := ApplyCarryoverPolicy(history, Mode(policy), Limit(policy));
      prompt := prompt + pruned;
    }

    // The section under the session's mutex. `outcome` is what the model, or the command,
    // returns; `newId` is the id a new session gets.
    method HandleMessage(key: string, text: string, systemEvent: bool, policy: Policy, outcome: Outcome,
                         newId: string, now: int)
      returns (result: Result, prompt: Option<seq<Message>>)
      requires store.Valid() && !HasId(store.index, newId)
      modifies store
      ensures store.Valid()
      ensures key == "" ==> result == KeyRequired && prompt == None
      ensures key == "" ==> forall k :: store.Transcript(k) == old(store.Transcript(k))
      ensures key != "" ==>
        && result == (if outcome.Replied? then Answer(outcome.text) else Raised)
        && store.Transcript(key) == old(store.Transcript(key)) + TurnLines(text, systemEvent, outcome)
        && (forall k :: k != key ==> store.Transcript(k) == old(store.Transcript(k)))
        && prompt == (if IsCommand(text, systemEvent) then None
                      else Some(Prompt(systemPrompt, old(store.Transcript(key)) + [Question(text, systemEvent)],
                                       policy)))
      // the lines themselves: the question under its role, and the answer when there is one
      ensures key != "" ==>
        TurnShown(old(store.Transcript(key)), store.Transcript(key), text, systemEvent, outcome)
      ensures key != "" ==> (prompt == None <==> !systemEvent && |text| > 0 && text[0] == '/')
    {
      TurnMeaning(store.Transcript(key), text, systemEvent, outcome);
      prompt := None;
      if key == "" {
        return KeyRequired, None;
      }
      var info := store.EnsureSession(key, newId, now);
      store.Append(key, if systemEvent then "system" else "user", text, now);
      if !IsCommand(text, systemEvent) {
        var built := BuildPrompt(key, policy);
        prompt := Some(built);
      }
      match outcome {
        case Replied(reply) =>
          TurnGrows(old(store.Transcript(key)), text, systemEvent, reply);
          store.Append(key, "assistant", reply, now);
          return Answer(reply), prompt;
        case Failed =>
          TurnGrows(old(store.Transcript(key)), text, systemEvent, "");
          return Raised, prompt;
      }
    }
  }
}
