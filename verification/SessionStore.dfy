// The session store: an index of session keys and one append-only transcript per session.
module SessionStore {
  import opened Prelude
  import opened Carryover

  datatype Info = Info(key: string, sessionId: string, updatedAt: int)

  // The position of `key` in the index, or its length.
  function FindKey(index: seq<Info>, key: string): (r: nat)
    ensures r <= |index|
    ensures r < |index| ==> index[r].key == key
    ensures forall i :: 0 <= i < r ==> index[i].key != key
  {
    FirstIndex(index, (info: Info) => info.key == key)
  }

  ghost predicate HasId(index: seq<Info>, id: string) {
    exists i :: 0 <= i < |index| && index[i].sessionId == id
  }

  // Growing the index, or touching an entry's time, loses no session id.
  lemma HasIdKept(index: seq<Info>, index': seq<Info>, id: string)
    requires HasId(index, id)
    requires |index| <= |index'|
    requires forall i :: 0 <= i < |index| ==> index'[i].sessionId == index[i].sessionId
    ensures HasId(index', id)
  {
    var i :| 0 <= i < |index| && index[i].sessionId == id;
    assert index'[i].sessionId == id;
  }

  // Keys are unique, and so are session ids; only indexed sessions have files.
  ghost predicate StoreOk(index: seq<Info>, files: map<string, seq<Message>>) {
    && (forall i, j :: 0 <= i < j < |index| ==>
        index[i].key != index[j].key && index[i].sessionId != index[j].sessionId)
    && (forall id :: id in files ==> HasId(index, id))
  }

  // What a reader of `key` sees.
  function TranscriptOf(index: seq<Info>, files: map<string, seq<Message>>, key: string): seq<Message> {
    var k := FindKey(index, key);
    if k < |index| then GetOr(files, index[k].sessionId, []) else []
  }

  // The files after a line was added to one of them.
  function WithLine(files: map<string, seq<Message>>, id: string, m: Message): map<string, seq<Message>> {
    files[id := GetOr(files, id, []) + [m]]
  }

  // Writing to the file of the entry at `k` and renewing its time adds one line to one
  // transcript.
  lemma WriteMeaning(index: seq<Info>, files: map<string, seq<Message>>, k: nat, info: Info, m: Message, key: string)
    requires StoreOk(index, files)
    requires k < |index| && info == index[k].(updatedAt := info.updatedAt)
    ensures FindKey(index, info.key) == k && FindKey(index[k := info], key) == FindKey(index, key)
    ensures TranscriptOf(index[k := info], WithLine(files, info.sessionId, m), key)
         == TranscriptOf(index, files, key) + if key == info.key then [m] else []
  {
    FindKeyIs(index, info.key, k);
    TouchIsQuiet(index, k, info, key);
    var r := FindKey(index, key);
    if r < |index| && r != k {
      assert index[r].sessionId != index[k].sessionId;
    }
  }

  lemma WriteKeepsStore(index: seq<Info>, files: map<string, seq<Message>>, k: nat, info: Info, m: Message)
    requires StoreOk(index, files)
    requires k < |index| && info == index[k].(updatedAt := info.updatedAt)
    ensures StoreOk(index[k := info], WithLine(files, info.sessionId, m))
  {
    forall id | id in WithLine(files, info.sessionId, m)
      ensures HasId(index[k := info], id)
    {
      if id == info.sessionId {
        assert index[k := info][k].sessionId == id;
      } else {
        HasIdKept(index, index[k := info], id);
      }
    }
  }

  class Store {
    var index: seq<Info>
    // the transcript file of each session id
    var files: map<string, seq<Message>>

    ghost predicate Valid()
      reads this
    {
      StoreOk(index, files)
    }

    function Transcript(key: string): seq<Message>
      reads this
    {
      TranscriptOf(index, files, key)
    }

    constructor ()
      ensures Valid()
      ensures forall key :: Transcript(key) == []
    {
      index := [];
      files := map[];
    }

    // `newId` is what newSessionId produced, should it be needed.
    method EnsureSession(key: string, newId: string, now: int) returns (info: Info)
      requires Valid() && !HasId(index, newId)
      modifies this
      ensures Valid()
      ensures info.key == key && FindKey(index, key) < |index| && index[FindKey(index, key)] == info
      ensures old(index) <= index && files == old(files)
      ensures index == old(index) + if FindKey(old(index), key) < |old(index)| then [] else [Info(key, newId, now)]
      ensures forall k :: Transcript(k) == old(Transcript(k))
    {
      var k := FindKey(index, key);
      if k < |index| {
        return index[k];
      }
      info := Info(key, newId, now);
      AddIsQuiet(index, info);
      index := index + [info];
      forall id | id in files
        ensures HasId(index, id)
      {
        HasIdKept(old(index), index, id);
      }
      assert forall i :: 0 <= i < |old(index)| ==> index[i].sessionId != newId;
    }

    // appendMessage; a session that is not there yet is created with `newId`.
    method AppendMessage(key: string, role: string, content: string, newId: string, now: int)
      requires Valid() && !HasId(index, newId)
      modifies this
      ensures Valid()
      ensures FindKey(index, key) < |index| && index[FindKey(index, key)].updatedAt == now
      ensures Transcript(key) == old(Transcript(key)) + [Message(role, content)]
      ensures forall k :: k != key ==> Transcript(k) == old(Transcript(k))
    {
      var info := EnsureSession(key, newId, now);
      Append(key, role, content, now);
    }

    // The same for a session that exists.
    method Append(key: string, role: string, content: string, now: int)
      requires Valid() && FindKey(index, key) < |index|
      modifies this
      ensures Valid()
      ensures FindKey(index, key) < |index|
      // the time of this entry is renewed, and nothing else about the index
      ensures var k := FindKey(old(index), key);
        FindKey(index, key) == k && index == old(index)[k := old(index)[k].(updatedAt := now)]
      ensures Transcript(key) == old(Transcript(key)) + [Message(role, content)]
      ensures forall k :: k != key ==> Transcript(k) == old(Transcript(k))
    {
      var k := FindKey(index, key);
      Write(k, index[k].(updatedAt := now), Message(role, content));
    }

    // The new line goes to the file of the entry at `k`, whose time stamp is renewed.
    method Write(k: nat, info: Info, m: Message)
      requires Valid()
      requires k < |index| && info == index[k].(updatedAt := info.updatedAt)
      modifies this
      ensures Valid()
      ensures FindKey(index, info.key) < |index|
      ensures index == old(index)[k := info] && FindKey(index, info.key) == k
      ensures Transcript(info.key) == old(Transcript(info.key)) + [m]
      ensures forall other :: other != info.key ==> Transcript(other) == old(Transcript(other))
    {
      WriteKeepsStore(index, files, k, info, m);
      forall key: string
        ensures FindKey(index[k := info], key) == FindKey(index, key)
        ensures TranscriptOf(index[k := info], WithLine(files, info.sessionId, m), key)
             == TranscriptOf(index, files, key) + if key == info.key then [m] else []
      {
        WriteMeaning(index, files, k, info, m, key);
      }
      WriteMeaning(index, files, k, info, m, info.key);
      assert FindKey(index[k := info], info.key) == k;
      index := index[k := info];
      files := files[info.sessionId := GetOr(files, info.sessionId, []) + [m]];
    }

    method LoadMessages(key: string, limit: nat) returns (messages: seq<Message>)
      ensures messages == LastN(Transcript(key), limit)
    {
      for i := 0 to |index|
        invariant FindKey(index, key) >= i
      {
        if index[i].key == key {
          messages := GetOr(files, index[i].sessionId, []);
          if |messages| > limit {
            messages := messages[|messages| - limit..];
          }
          return;
        }
      }
      return [];
    }
  }

  // Adding an entry for a new key moves no other key.
  lemma AddIsQuiet(index: seq<Info>, info: Info)
    requires FindKey(index, info.key) == |index|
    ensures FindKey(index + [info], info.key) == |index|
    ensures forall k :: k != info.key ==>
      (FindKey(index, k) < |index| ==> FindKey(index + [info], k) == FindKey(index, k))
      && (FindKey(index, k) == |index| ==> FindKey(index + [info], k) == |index| + 1)
  {
    forall k: string
      ensures FindKey(index, k) < |index| ==> FindKey(index + [info], k) == FindKey(index, k)
      ensures FindKey(index, k) == |index| ==>
        FindKey(index + [info], k) == if k == info.key then |index| else |index| + 1
    {
      FindKeyIs(index + [info], k,
        if FindKey(index, k) < |index| then FindKey(index, k) else if k == info.key then |index| else |index| + 1);
    }
  }

  lemma FindKeyIs(index: seq<Info>, key: string, r: nat)
    requires r <= |index| && (r < |index| ==> index[r].key == key)
    requires forall i :: 0 <= i < r ==> index[i].key != key
    ensures FindKey(index, key) == r
  {
  }

  lemma TouchIsQuiet(index: seq<Info>, k: nat, info: Info, key: string)
    requires k < |index| && info.key == index[k].key
    ensures FindKey(index[k := info], key) == FindKey(index, key)
  {
    FindKeyIs(index[k := info], key, FindKey(index, key));
  }
}
