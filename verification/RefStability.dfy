// What rebuilding promises about reference ids: who keeps an id, who gets a new one,
// and where typed text can end up.
module RefStability {
  import opened Prelude
  import opened NativeRefs
  import opened RefSignatures
  import Decimal

  // Every record a scan stores carries a signature, and never the lookup key of the root.
  ghost predicate RefsOk(refs: map<string, Ref>) {
    forall id :: id in refs ==> refs[id].signature != "" && refs[id].signature != DOC_KEY
  }

  ghost predicate SignaturesDistinct(refs: map<string, Ref>) {
    forall a, b :: a in refs && b in refs && a != b ==> refs[a].signature != refs[b].signature
  }

  // The page shows no two elements with one signature.
  ghost predicate Distinct(page: Page) {
    forall i, j :: 0 <= i < j < |page.elements| ==> Signature(page.elements[i]) != Signature(page.elements[j])
  }

  // The page shows no two elements that are the same on their own fields, and no field that
  // could be cut differently.
  ghost predicate ToldApart(page: Page) {
    && (forall i :: 0 <= i < |page.elements| ==> !Cuttable(page.elements[i]))
    && (forall i, j :: 0 <= i < j < |page.elements| ==> !SameElement(page.elements[i], page.elements[j]))
  }

  ghost predicate Barless(page: Page) {
    forall i :: 0 <= i < |page.elements| ==> NoBars(page.elements[i])
  }

  // Such a page has no two elements with one signature; without bars anywhere it is the
  // same thing.
  lemma DistinctMeaning(page: Page)
    ensures ToldApart(page) ==> Distinct(page)
    ensures Barless(page) ==> (Distinct(page) <==> ToldApart(page))
  {
    forall i, j | 0 <= i < j < |page.elements|
      ensures ToldApart(page) ==> Signature(page.elements[i]) != Signature(page.elements[j])
      ensures Distinct(page) ==> !SameElement(page.elements[i], page.elements[j])
    {
      SignatureMeaning(page.elements[i], page.elements[j]);
      SharedExactly(page.elements[i]);
    }
  }

  // ------------------------------------------------------------------
  // The scan

  lemma SignatureShape(e: Element)
    ensures Signature(e) != "" && Signature(e) != DOC_KEY && Signature(e) != DOC_SIGNATURE
  {
    var s := Signature(e);
    match e
    case Link(_, _, _) => assert s[1] == '|';
    case Input(_, _, _, _) => assert s[0] == 'i';
    case TextArea(_, _, _, _) => assert s[0] == 't';
    case Button(_, _, _) => assert s[0] == 'b';
  }

  lemma ParsedShape(page: Page, i: nat)
    requires i < |Parsed(page)|
    ensures i == 0 ==> Parsed(page)[i] == DocEntry(page.title)
    ensures i > 0 ==>
      && Parsed(page)[i].key == Parsed(page)[i].record.signature == Signature(page.elements[i - 1])
      && Parsed(page)[i].key != DOC_KEY && Parsed(page)[i].record.signature != DOC_SIGNATURE
    ensures Parsed(page)[i].key != "" && Parsed(page)[i].record.signature != "" &&
      Parsed(page)[i].record.signature != DOC_KEY
  {
    if i > 0 {
      SignatureShape(page.elements[i - 1]);
    }
  }

  lemma {:induction false} NewOnesGrow(entries: seq<Entry>, index: map<string, string>, i: nat, j: nat)
    requires i < j <= |entries|
    ensures NewOnes(entries[..i], index) <= NewOnes(entries[..j], index)
    ensures entries[i].key !in index ==> NewOnes(entries[..i], index) < NewOnes(entries[..j], index)
  {
    assert entries[..j][..j - 1] == entries[..j - 1];
    if i < j - 1 {
      NewOnesGrow(entries, index, i, j - 1);
    }
  }

  lemma IdNumberOfId(n: nat)
    ensures IdNumber(Id(n)) == Some(n)
  {
    Decimal.DecimalRoundTrip(n);
    assert Id(n)[1..] == Decimal.ToDecimal(n);
  }

  // Two new entries get different ids.
  lemma NewIdsDiffer(entries: seq<Entry>, index: map<string, string>, next: nat, i: nat, j: nat)
    requires i < j < |entries|
    requires entries[i].key !in index && entries[j].key !in index
    ensures IdAt(entries, index, next, i) != IdAt(entries, index, next, j)
  {
    NewOnesGrow(entries, index, i, j);
    IdNumberOfId(next + NewOnes(entries[..i], index));
    IdNumberOfId(next + NewOnes(entries[..j], index));
  }

  // A number from `next` on never gives an id that is in use.
  lemma NewIdIsFresh(refs: map<string, Ref>, next: nat, k: nat)
    requires IsNextId(refs, next)
    ensures Id(next + k) !in refs
  {
    IdNumberOfId(next + k);
  }

  lemma {:induction false} CollectHas(entries: seq<Entry>, ids: seq<string>, typed: map<string, string>,
                                      id: string) returns (i: nat)
    requires |ids| == |entries|
    requires id in Collect(entries, ids, typed)
    ensures i < |ids| && ids[i] == id
    ensures Collect(entries, ids, typed)[id] == WithText(entries[i].record, id, typed)
  {
    var n := |entries| - 1;
    if id == ids[n] {
      i := n;
    } else {
      i := CollectHas(entries[..n], ids[..n], typed, id);
    }
  }

  lemma {:induction false} CollectAt(entries: seq<Entry>, ids: seq<string>, typed: map<string, string>, i: nat)
    requires |ids| == |entries| && i < |ids|
    ensures ids[i] in Collect(entries, ids, typed)
    ensures (forall j :: i < j < |ids| ==> ids[j] != ids[i]) ==>
      Collect(entries, ids, typed)[ids[i]] == WithText(entries[i].record, ids[i], typed)
  {
    var n := |entries| - 1;
    if i < n {
      CollectAt(entries[..n], ids[..n], typed, i);
      if forall j :: i < j < |ids| ==> ids[j] != ids[i] {
        assert forall j :: i < j < n ==> ids[..n][j] == ids[j];
        assert ids[n] != ids[i];
      }
    }
  }

  // ------------------------------------------------------------------
  // Any page: an id never changes hands

  // One entry of the scan: it keeps an id exactly of its own signature, or gets a new one.
  lemma EntryId(t: Target, page: Page, index: map<string, string>, next: nat, i: nat)
    requires RefsOk(t.refs) && IsIndex(t.refs, index) && IsNextId(t.refs, next)
    requires i < |Parsed(page)|
    ensures
      var id := Assigned(Parsed(page), index, next)[i];
      && (id in t.refs <==> Parsed(page)[i].key in index)
      && (id in t.refs ==> i > 0 && t.refs[id].signature == Parsed(page)[i].record.signature)
  {
    var entries := Parsed(page);
    ParsedShape(page, i);
    if entries[i].key !in index {
      NewIdIsFresh(t.refs, next, NewOnes(entries[..i], index));
    }
  }

  // Main result 1. Whatever the page, duplicates included, an id that was in use and is
  // still in use belongs to an element with the same signature; so an element that is
  // new to the page never gets an id of the previous refs.
  lemma IdNeverChangesHands(t: Target, page: Page, index: map<string, string>, next: nat, id: string)
    requires RefsOk(t.refs) && IsIndex(t.refs, index) && IsNextId(t.refs, next)
    requires id in t.refs && id in Rebuild(t, page, index, next).refs
    ensures Rebuild(t, page, index, next).refs[id].signature == t.refs[id].signature
  {
    var entries := Parsed(page);
    var i := CollectHas(entries, Assigned(entries, index, next), t.typed, id);
    EntryId(t, page, index, next, i);
  }

  lemma RebuildKeepsRefsOk(t: Target, page: Page, index: map<string, string>, next: nat)
    ensures RefsOk(Rebuild(t, page, index, next).refs)
  {
    var entries := Parsed(page);
    var refs := Rebuild(t, page, index, next).refs;
    forall id | id in refs
      ensures refs[id].signature != "" && refs[id].signature != DOC_KEY
    {
      var i := CollectHas(entries, Assigned(entries, index, next), t.typed, id);
      ParsedShape(page, i);
    }
  }

  // ------------------------------------------------------------------
  // Pages without duplicates

  lemma IdsDistinct(t: Target, page: Page, index: map<string, string>, next: nat, i: nat, j: nat)
    requires RefsOk(t.refs) && IsIndex(t.refs, index) && IsNextId(t.refs, next)
    requires Distinct(page)
    requires i < j < |Parsed(page)|
    ensures Assigned(Parsed(page), index, next)[i] != Assigned(Parsed(page), index, next)[j]
  {
    var entries := Parsed(page);
    EntryId(t, page, index, next, i);
    EntryId(t, page, index, next, j);
    ParsedShape(page, i);
    ParsedShape(page, j);
    if entries[i].key !in index && entries[j].key !in index {
      NewIdsDiffer(entries, index, next, i, j);
    }
  }

  // Main result 2. On a page without duplicate signatures, which any page is whose elements
  // differ on their own fields and whose fields cannot be cut differently, every element,
  // and the root, is stored under an id of its own, with its own record and typed text.
  lemma EveryElementStored(t: Target, page: Page, index: map<string, string>, next: nat, i: nat)
    requires RefsOk(t.refs) && IsIndex(t.refs, index) && IsNextId(t.refs, next)
    requires (Distinct(page) || ToldApart(page)) && i < |Parsed(page)|
    ensures
      var id := Assigned(Parsed(page), index, next)[i];
      var refs' := Rebuild(t, page, index, next).refs;
      id in refs' && refs'[id] == WithText(Parsed(page)[i].record, id, t.typed)
    ensures forall j :: 0 <= j < |Parsed(page)| && j != i ==>
      Assigned(Parsed(page), index, next)[j] != Assigned(Parsed(page), index, next)[i]
  {
    DistinctMeaning(page);
    var entries := Parsed(page);
    var ids := Assigned(entries, index, next);
    forall j | 0 <= j < |ids| && j != i
      ensures ids[j] != ids[i]
    {
      IdsDistinct(t, page, index, next, Min(i, j), Max(i, j));
    }
    CollectAt(entries, ids, t.typed, i);
  }

  lemma RecordSignaturesDiffer(page: Page, i: nat, j: nat)
    requires Distinct(page) && i < |Parsed(page)| && j < |Parsed(page)| && i != j
    ensures Parsed(page)[i].record.signature != Parsed(page)[j].record.signature
  {
    ParsedShape(page, i);
    ParsedShape(page, j);
  }

  lemma RebuildSignaturesDistinct(t: Target, page: Page, index: map<string, string>, next: nat)
    requires RefsOk(t.refs) && IsIndex(t.refs, index) && IsNextId(t.refs, next)
    requires Distinct(page)
    ensures SignaturesDistinct(Rebuild(t, page, index, next).refs)
  {
    var entries := Parsed(page);
    var ids := Assigned(entries, index, next);
    var refs := Rebuild(t, page, index, next).refs;
    forall a, b | a in refs && b in refs && a != b
      ensures refs[a].signature != refs[b].signature
    {
      var i := CollectHas(entries, ids, t.typed, a);
      var j := CollectHas(entries, ids, t.typed, b);
      RecordSignaturesDiffer(page, i, j);
    }
  }

  // Main result 3. An element seen before keeps its id and its typed text.
  lemma SeenElementKeepsId(t: Target, page: Page, index: map<string, string>, next: nat, id: string, i: nat)
    requires RefsOk(t.refs) && IsIndex(t.refs, index) && IsNextId(t.refs, next)
    requires SignaturesDistinct(t.refs) && (Distinct(page) || ToldApart(page))
    requires id in t.refs && 0 < i < |Parsed(page)| && t.refs[id].signature == Parsed(page)[i].key
    ensures Assigned(Parsed(page), index, next)[i] == id
    ensures id in Rebuild(t, page, index, next).refs
    ensures id in t.typed ==>
      id in Rebuild(t, page, index, next).typed && Rebuild(t, page, index, next).typed[id] == t.typed[id]
  {
    EveryElementStored(t, page, index, next, i);
  }

  // ------------------------------------------------------------------
  // An unchanged page

  // Main result 4. Rebuilding again from the same page changes nothing but the root: its
  // record, stored under "document" and looked up as "doc", moves to a fresh id each time.
  lemma UnchangedPage(t0: Target, page: Page, index0: map<string, string>, next0: nat, index1: map<string, string>,
                      next1: nat)
    returns (oldDoc: string, newDoc: string)
    requires RefsOk(t0.refs) && IsIndex(t0.refs, index0) && IsNextId(t0.refs, next0)
    requires t0.typed.Keys <= t0.refs.Keys
    requires Distinct(page) || ToldApart(page)
    requires
      var t1 := Rebuild(t0, page, index0, next0);
      IsIndex(t1.refs, index1) && IsNextId(t1.refs, next1)
    ensures
      var t1 := Rebuild(t0, page, index0, next0);
      var t2 := Rebuild(t1, page, index1, next1);
      && oldDoc in t1.refs && t1.refs[oldDoc] == DocEntry(page.title).record
      && newDoc !in t1.refs
      && t2.refs == (t1.refs - {oldDoc})[newDoc := t1.refs[oldDoc]]
      && t2.typed == t1.typed
  {
    DistinctMeaning(page);
    var t1 := Rebuild(t0, page, index0, next0);
    var t2 := Rebuild(t1, page, index1, next1);
    var entries := Parsed(page);
    var ids0, ids1 := Assigned(entries, index0, next0), Assigned(entries, index1, next1);
    oldDoc, newDoc := ids0[0], ids1[0];
    RebuildKeepsRefsOk(t0, page, index0, next0);
    RebuildSignaturesDistinct(t0, page, index0, next0);
    RootMoves(t0, page, index0, next0);
    RootMoves(t1, page, index1, next1);
    forall i | 0 < i < |entries|
      ensures ids0[i] == ids1[i] && ids0[i] in t1.refs && ids0[i] in t2.refs && t2.refs[ids0[i]] == t1.refs[ids0[i]]
      ensures ids0[i] != oldDoc && ids0[i] != newDoc
    {
      SameElementSameRecord(t0, page, index0, next0, index1, next1, i);
      IdsDistinct(t0, page, index0, next0, 0, i);
    }
    UnchangedRefs(t0, page, index0, next0, index1, next1);
    UnchangedTyped(t0, page, index0, next0, index1, next1);
  }

  // All elements are in place and the root has moved.
  ghost predicate InPlace(t0: Target, page: Page, index0: map<string, string>, next0: nat,
                          index1: map<string, string>, next1: nat) {
    var entries := Parsed(page);
    var ids0, ids1 := Assigned(entries, index0, next0), Assigned(entries, index1, next1);
    var t1 := Rebuild(t0, page, index0, next0);
    var t2 := Rebuild(t1, page, index1, next1);
    && ids0[0] !in t0.refs && ids0[0] in t1.refs
    && ids1[0] !in t1.refs && ids1[0] in t2.refs && t2.refs[ids1[0]] == t1.refs[ids0[0]]
    && forall i :: 0 < i < |entries| ==>
      && ids0[i] == ids1[i] && ids0[i] in t1.refs && ids0[i] in t2.refs && t2.refs[ids0[i]] == t1.refs[ids0[i]]
      && ids0[i] != ids0[0] && ids0[i] != ids1[0]
  }

  // Then the two tables differ in the root alone.
  lemma UnchangedRefs(t0: Target, page: Page, index0: map<string, string>, next0: nat, index1: map<string, string>,
                      next1: nat)
    requires InPlace(t0, page, index0, next0, index1, next1)
    ensures
      var oldDoc, newDoc := Assigned(Parsed(page), index0, next0)[0], Assigned(Parsed(page), index1, next1)[0];
      var t1 := Rebuild(t0, page, index0, next0);
      oldDoc in t1.refs && Rebuild(t1, page, index1, next1).refs == (t1.refs - {oldDoc})[newDoc := t1.refs[oldDoc]]
  {
    var entries := Parsed(page);
    var ids0, ids1 := Assigned(entries, index0, next0), Assigned(entries, index1, next1);
    var t1 := Rebuild(t0, page, index0, next0);
    CollectKeys(entries, ids0, t0.typed);
    CollectKeys(entries, ids1, t1.typed);
    HeadMoved(t1.refs, Rebuild(t1, page, index1, next1).refs, ids0, ids1);
  }

  lemma CollectKeys(entries: seq<Entry>, ids: seq<string>, typed: map<string, string>)
    requires |ids| == |entries|
    ensures forall id :: id in Collect(entries, ids, typed) ==> id in ids
  {
    forall id | id in Collect(entries, ids, typed)
      ensures id in ids
    {
      var i := CollectHas(entries, ids, typed, id);
    }
  }

  // Two tables whose ids and records agree except for the first id.
  lemma HeadMoved(refs1: map<string, Ref>, refs2: map<string, Ref>, ids1: seq<string>, ids2: seq<string>)
    requires |ids1| == |ids2| > 0
    requires forall id :: id in refs1 ==> id in ids1
    requires forall id :: id in refs2 ==> id in ids2
    requires ids1[0] in refs1 && ids2[0] in refs2 && refs2[ids2[0]] == refs1[ids1[0]]
    requires forall i :: 0 < i < |ids1| ==>
      && ids1[i] == ids2[i] && ids1[i] in refs1 && ids1[i] in refs2 && refs2[ids1[i]] == refs1[ids1[i]]
      && ids1[i] != ids1[0] && ids1[i] != ids2[0]
    ensures refs2 == (refs1 - {ids1[0]})[ids2[0] := refs1[ids1[0]]]
  {
    var expected := (refs1 - {ids1[0]})[ids2[0] := refs1[ids1[0]]];
    forall id | id in refs2
      ensures id in expected && refs2[id] == expected[id]
    {
      var i :| 0 <= i < |ids2| && ids2[i] == id;
    }
    forall id | id in expected
      ensures id in refs2
    {
      if id != ids2[0] {
        var i :| 0 <= i < |ids1| && ids1[i] == id;
      }
    }
    assert refs2.Keys == expected.Keys;
  }

  lemma UnchangedTyped(t0: Target, page: Page, index0: map<string, string>, next0: nat, index1: map<string, string>,
                       next1: nat)
    requires InPlace(t0, page, index0, next0, index1, next1)
    requires t0.typed.Keys <= t0.refs.Keys
    ensures
      var t1 := Rebuild(t0, page, index0, next0);
      Rebuild(t1, page, index1, next1).typed == t1.typed
  {
    var entries := Parsed(page);
    var t1 := Rebuild(t0, page, index0, next0);
    var t2 := Rebuild(t1, page, index1, next1);
    forall id | id in t1.typed
      ensures id in t2.refs
    {
      var i := CollectHas(entries, Assigned(entries, index0, next0), t0.typed, id);
      assert i != 0;
    }
  }

  // The root is never found, so it always gets a new id and no typed text.
  lemma RootMoves(t: Target, page: Page, index: map<string, string>, next: nat)
    requires RefsOk(t.refs) && IsIndex(t.refs, index) && IsNextId(t.refs, next)
    requires Distinct(page)
    ensures
      var id := Assigned(Parsed(page), index, next)[0];
      id !in t.refs && id in Rebuild(t, page, index, next).refs
      && Rebuild(t, page, index, next).refs[id] == DocEntry(page.title).record
  {
    EntryId(t, page, index, next, 0);
    EveryElementStored(t, page, index, next, 0);
  }

  lemma SameElementSameRecord(t0: Target, page: Page, index0: map<string, string>, next0: nat,
                              index1: map<string, string>, next1: nat, i: nat)
    requires RefsOk(t0.refs) && IsIndex(t0.refs, index0) && IsNextId(t0.refs, next0)
    requires Distinct(page) && 0 < i < |Parsed(page)|
    requires
      var t1 := Rebuild(t0, page, index0, next0);
      IsIndex(t1.refs, index1) && IsNextId(t1.refs, next1)
    ensures
      var t1 := Rebuild(t0, page, index0, next0);
      var t2 := Rebuild(t1, page, index1, next1);
      var id := Assigned(Parsed(page), index0, next0)[i];
      && Assigned(Parsed(page), index1, next1)[i] == id
      && id in t1.refs && id in t2.refs && t2.refs[id] == t1.refs[id]
  {
    var t1 := Rebuild(t0, page, index0, next0);
    var id := Assigned(Parsed(page), index0, next0)[i];
    RebuildKeepsRefsOk(t0, page, index0, next0);
    RebuildSignaturesDistinct(t0, page, index0, next0);
    EveryElementStored(t0, page, index0, next0, i);
    ParsedShape(page, i);
    SeenElementKeepsId(t1, page, index1, next1, id, i);
    EveryElementStored(t1, page, index1, next1, i);
  }

  // Duplicates are exactly what breaks this: once the page has been seen, two of its
  // elements get one id if and only if they share a signature; for elements whose fields
  // cannot be cut differently, if and only if they are the same on their own fields.
  lemma OnlyDuplicatesMerge(t0: Target, page: Page, index0: map<string, string>, next0: nat,
                            index1: map<string, string>, next1: nat, i: nat, j: nat)
    requires RefsOk(t0.refs) && IsIndex(t0.refs, index0) && IsNextId(t0.refs, next0)
    requires
      var t1 := Rebuild(t0, page, index0, next0);
      IsIndex(t1.refs, index1) && IsNextId(t1.refs, next1)
    requires 0 < i < j < |Parsed(page)|
    ensures
      var ids := Assigned(Parsed(page), index1, next1);
      ids[i] == ids[j] <==> Signature(page.elements[i - 1]) == Signature(page.elements[j - 1])
    ensures
      var e, f, ids := page.elements[i - 1], page.elements[j - 1], Assigned(Parsed(page), index1, next1);
      !Cuttable(e) || (NoBars(e) && NoBars(f)) ==> (ids[i] == ids[j] <==> SameElement(e, f))
  {
    SignatureMeaning(page.elements[i - 1], page.elements[j - 1]);
    SharedExactly(page.elements[i - 1]);
    var t1 := Rebuild(t0, page, index0, next0);
    SeenIsIndexed(t0, page, index0, next0, index1, i);
    SeenIsIndexed(t0, page, index0, next0, index1, j);
  }

  // Every signature of a page just scanned is in the next index.
  lemma SeenIsIndexed(t0: Target, page: Page, index0: map<string, string>, next0: nat, index1: map<string, string>,
                      i: nat)
    requires RefsOk(t0.refs) && IsIndex(t0.refs, index0) && IsNextId(t0.refs, next0)
    requires IsIndex(Rebuild(t0, page, index0, next0).refs, index1)
    requires 0 < i < |Parsed(page)|
    ensures Parsed(page)[i].key == Signature(page.elements[i - 1]) && Parsed(page)[i].key in index1
  {
    var entries := Parsed(page);
    var ids := Assigned(entries, index0, next0);
    var refs := Rebuild(t0, page, index0, next0).refs;
    ParsedShape(page, i);
    CollectAt(entries, ids, t0.typed, i);
    var k := CollectHas(entries, ids, t0.typed, ids[i]);
    // whoever ended up under this id has the same signature
    EntryId(t0, page, index0, next0, i);
    EntryId(t0, page, index0, next0, k);
    ParsedShape(page, k);
    if entries[i].key !in index0 && k != i {
      NewIdsDiffer(entries, index0, next0, if i < k then i else k, if i < k then k else i);
    }
    assert refs[ids[i]].signature == entries[i].key;
  }

  // ------------------------------------------------------------------
  // Whole sessions on one target

  // `owner` and `last` observe, for each id, the signature of the element last written to
  // under that id and the text written then; `named` observes what every id ever handed
  // out stood for when it was last handed out.
  datatype Session = Session(
    target: Target,
    page: Page,
    owner: map<string, string>,
    last: map<string, string>,
    named: map<string, string>)

  // The index and number of each step are those of the refs at that time.
  // SetValue is the evaluate action when its script leaves a value behind: it writes to an
  // element of any role, and the script may have moved on to another page.
  datatype Step =
    | Navigate(page: Page, index: map<string, string>, next: nat)
    | Snapshot(index: map<string, string>, next: nat)
    | TypeText(id: string, text: string, index: map<string, string>, next: nat)
    | SetValue(id: string, text: string, page: Page, index: map<string, string>, next: nat)

  function Start(): Session {
    Session(Target(map[], map[]), Page("", []), map[], map[], map[])
  }

  function Written(s: Session, id: string, text: string): Session
    requires id in s.target.refs
  {
    s.(target := s.target.(typed := s.target.typed[id := text]),
       owner := s.owner[id := s.target.refs[id].signature],
       last := s.last[id := text])
  }

  function Rebuilt(s: Session, page: Page, index: map<string, string>, next: nat): Session {
    var target := Rebuild(s.target, page, index, next);
    s.(target := target, page := page, named := s.named + Signatures(target.refs))
  }

  ghost function Apply(s: Session, step: Step): Session {
    if !(IsIndex(s.target.refs, step.index) && IsNextId(s.target.refs, step.next)) then s
    else
      match step
      case Navigate(page, index, next) => Rebuilt(s, page, index, next)
      case Snapshot(index, next) => Rebuilt(s, s.page, index, next)
      case TypeText(id, text, index, next) =>
        if id in s.target.refs && TakesText(s.target.refs[id].role) then
          Rebuilt(Written(s, id, text), s.page, index, next)
        else s
      case SetValue(id, text, page, index, next) =>
        if id in s.target.refs then Rebuilt(Written(s, id, text), page, index, next) else s
  }

  ghost function Run(steps: seq<Step>): Session {
    if steps == [] then Start() else Apply(Run(steps[..|steps| - 1]), steps[|steps| - 1])
  }

  // Written text sits at an id that still belongs to the element it was written to.
  ghost predicate TextOk(s: Session) {
    forall id :: id in s.target.typed ==>
      && id in s.target.refs && id in s.owner && id in s.last
      && s.target.refs[id].signature == s.owner[id] && s.target.typed[id] == s.last[id]
  }

  // The controls show what was written to them.
  ghost predicate ShownOk(t: Target) {
    forall id :: id in t.typed && id in t.refs && TakesText(t.refs[id].role) ==> t.refs[id].text == t.typed[id]
  }

  // The numbers handed out so far are no greater than the greatest in use, because the
  // root takes the next number at each rebuild.
  ghost predicate Reached(refs: map<string, Ref>, id: string) {
    exists k :: k in refs && IdNumber(k).Some? && IdNumber(id).Some? && IdNumber(id).value <= IdNumber(k).value
  }

  ghost predicate NamesOk(refs: map<string, Ref>, named: map<string, string>) {
    && (forall id :: id in refs ==> id in named && named[id] == refs[id].signature)
    && (forall id :: id in named ==> Reached(refs, id))
  }

  ghost predicate Inv(s: Session) {
    RefsOk(s.target.refs) && TextOk(s) && ShownOk(s.target) && NamesOk(s.target.refs, s.named)
  }

  // What a session may do to the ids named so far.
  ghost predicate Forever(s: Session, s': Session) {
    NamesStay(s.target.refs, s.named, s'.target.refs, s'.named)
  }

  ghost predicate NamesStay(refs: map<string, Ref>, named: map<string, string>, refs': map<string, Ref>,
                            named': map<string, string>) {
    && (forall id :: id in named ==> id in named' && named'[id] == named[id])
    && (forall id :: id in named && id !in refs ==> id !in refs')
  }

  lemma RebuiltKeepsText(s: Session, page: Page, index: map<string, string>, next: nat)
    requires RefsOk(s.target.refs) && TextOk(s)
    requires IsIndex(s.target.refs, index) && IsNextId(s.target.refs, next)
    ensures TextOk(Rebuilt(s, page, index, next)) && ShownOk(Rebuilt(s, page, index, next).target)
  {
    var t, t' := s.target, Rebuild(s.target, page, index, next);
    forall id | id in t'.typed
      ensures t'.refs[id].signature == t.refs[id].signature
      ensures TakesText(t'.refs[id].role) ==> t'.refs[id].text == t'.typed[id]
    {
      IdNeverChangesHands(t, page, index, next, id);
      var i := CollectHas(Parsed(page), Assigned(Parsed(page), index, next), t.typed, id);
    }
  }

  // An id after a rebuild is one from before with its signature, or a number from `next` on.
  lemma KeptOrNew(t: Target, page: Page, index: map<string, string>, next: nat, id: string)
    requires RefsOk(t.refs) && IsIndex(t.refs, index) && IsNextId(t.refs, next)
    requires id in Rebuild(t, page, index, next).refs
    ensures id in t.refs ==> Rebuild(t, page, index, next).refs[id].signature == t.refs[id].signature
    ensures id !in t.refs ==> IdNumber(id).Some? && IdNumber(id).value >= next
  {
    var entries := Parsed(page);
    var i := CollectHas(entries, Assigned(entries, index, next), t.typed, id);
    EntryId(t, page, index, next, i);
    NewEntryNumber(entries, index, next, i);
  }

  lemma NewEntryNumber(entries: seq<Entry>, index: map<string, string>, next: nat, i: nat)
    requires i < |entries|
    ensures entries[i].key !in index ==>
      var id := Assigned(entries, index, next)[i]; IdNumber(id).Some? && IdNumber(id).value >= next
  {
    IdNumberOfId(next + NewOnes(entries[..i], index));
  }

  // The root, and so a number not yet used, is in use afterwards.
  lemma RootIsNext(t: Target, page: Page, index: map<string, string>, next: nat)
    requires RefsOk(t.refs) && IsIndex(t.refs, index) && IsNextId(t.refs, next)
    ensures Id(next) in Rebuild(t, page, index, next).refs && IdNumber(Id(next)) == Some(next)
  {
    RootId(t, page, index, next);
    CollectAt(Parsed(page), Assigned(Parsed(page), index, next), t.typed, 0);
    IdNumberOfId(next);
  }

  lemma RootId(t: Target, page: Page, index: map<string, string>, next: nat)
    requires RefsOk(t.refs) && IsIndex(t.refs, index) && IsNextId(t.refs, next)
    ensures Assigned(Parsed(page), index, next)[0] == Id(next)
  {
    EntryId(t, page, index, next, 0);
    assert Parsed(page)[..0] == [];
  }

  // Every id in `refs'` is one of `refs` with its signature, or a number from `next` on,
  // and `next` itself is taken.
  ghost predicate TakesOver(refs: map<string, Ref>, refs': map<string, Ref>, next: nat) {
    && (forall id :: id in refs' ==>
          if id in refs then refs'[id].signature == refs[id].signature
          else IdNumber(id).Some? && IdNumber(id).value >= next)
    && exists root :: root in refs' && IdNumber(root) == Some(next)
  }

  lemma RebuildTakesOver(t: Target, page: Page, index: map<string, string>, next: nat)
    requires RefsOk(t.refs) && IsIndex(t.refs, index) && IsNextId(t.refs, next)
    ensures TakesOver(t.refs, Rebuild(t, page, index, next).refs, next)
  {
    RootIsNext(t, page, index, next);
    forall id | id in Rebuild(t, page, index, next).refs
      ensures id in t.refs ==> Rebuild(t, page, index, next).refs[id].signature == t.refs[id].signature
      ensures id !in t.refs ==> IdNumber(id).Some? && IdNumber(id).value >= next
    {
      KeptOrNew(t, page, index, next, id);
    }
  }

  function Signatures(refs: map<string, Ref>): map<string, string> {
    map id | id in refs :: refs[id].signature
  }

  lemma NamedIsBelow(refs: map<string, Ref>, named: map<string, string>, next: nat, id: string)
    requires NamesOk(refs, named) && IsNextId(refs, next) && id in named
    ensures IdNumber(id).Some? && IdNumber(id).value < next
  {
    assert Reached(refs, id);
  }

  lemma TakingOverKeepsNames(refs: map<string, Ref>, named: map<string, string>, refs': map<string, Ref>, next: nat)
    requires NamesOk(refs, named) && IsNextId(refs, next)
    requires TakesOver(refs, refs', next)
    ensures NamesOk(refs', named + Signatures(refs'))
    ensures NamesStay(refs, named, refs', named + Signatures(refs'))
  {
    forall id | id in named + Signatures(refs')
      ensures Reached(refs', id)
    {
      NamedIsReached(refs, named, refs', next, id);
    }
    TakingOverKeepsSignatures(refs, named, refs', next);
  }

  lemma TakingOverKeepsSignatures(refs: map<string, Ref>, named: map<string, string>, refs': map<string, Ref>,
                                  next: nat)
    requires NamesOk(refs, named) && IsNextId(refs, next)
    requires TakesOver(refs, refs', next)
    ensures NamesStay(refs, named, refs', named + Signatures(refs'))
  {
    forall id | id in named && id in refs'
      ensures id in refs && refs'[id].signature == named[id]
    {
      NamedIsBelow(refs, named, next, id);
    }
  }

  lemma NamedIsReached(refs: map<string, Ref>, named: map<string, string>, refs': map<string, Ref>, next: nat,
                       id: string)
    requires NamesOk(refs, named) && IsNextId(refs, next) && TakesOver(refs, refs', next)
    requires id in named || id in refs'
    ensures Reached(refs', id)
  {
    if id in named {
      NamedIsBelow(refs, named, next, id);
      var root :| root in refs' && IdNumber(root) == Some(next);
      ReachesUpTo(refs', root, id);
    } else {
      ReachesUpTo(refs', id, id);
    }
  }

  lemma ReachesUpTo(refs: map<string, Ref>, k: string, id: string)
    requires k in refs && IdNumber(k).Some? && IdNumber(id).Some? && IdNumber(id).value <= IdNumber(k).value
    ensures Reached(refs, id)
  {
  }

  lemma RebuiltKeepsInv(s: Session, page: Page, index: map<string, string>, next: nat)
    requires RefsOk(s.target.refs) && TextOk(s) && NamesOk(s.target.refs, s.named)
    requires IsIndex(s.target.refs, index) && IsNextId(s.target.refs, next)
    ensures Inv(Rebuilt(s, page, index, next)) && Forever(s, Rebuilt(s, page, index, next))
  {
    RebuildKeepsRefsOk(s.target, page, index, next);
    RebuiltKeepsText(s, page, index, next);
    RebuildTakesOver(s.target, page, index, next);
    TakingOverKeepsNames(s.target.refs, s.named, Rebuild(s.target, page, index, next).refs, next);
  }

  lemma WrittenKeeps(s: Session, id: string, text: string)
    requires Inv(s) && id in s.target.refs
    ensures TextOk(Written(s, id, text)) && NamesOk(s.target.refs, Written(s, id, text).named) &&
      Forever(s, Written(s, id, text))
  {
  }

  lemma StepKeepsInv(s: Session, step: Step)
    requires Inv(s)
    ensures Inv(Apply(s, step)) && Forever(s, Apply(s, step))
  {
    if IsIndex(s.target.refs, step.index) && IsNextId(s.target.refs, step.next) {
      match step
      case Navigate(page, index, next) => RebuiltKeepsInv(s, page, index, next);
      case Snapshot(index, next) => RebuiltKeepsInv(s, s.page, index, next);
      case TypeText(id, text, index, next) =>
        if id in s.target.refs && TakesText(s.target.refs[id].role) {
          WrittenKeeps(s, id, text);
          RebuiltKeepsInv(Written(s, id, text), s.page, index, next);
        }
      case SetValue(id, text, page, index, next) =>
        if id in s.target.refs {
          WrittenKeeps(s, id, text);
          RebuiltKeepsInv(Written(s, id, text), page, index, next);
        }
    }
  }

  lemma {:induction false} EveryRunKeepsInv(steps: seq<Step>)
    ensures Inv(Run(steps))
  {
    if steps != [] {
      EveryRunKeepsInv(steps[..|steps| - 1]);
      StepKeepsInv(Run(steps[..|steps| - 1]), steps[|steps| - 1]);
    }
  }

  // Main result 5. In every session, over any pages, any typing and any scripts, text that
  // a target still holds is the text last written under that id, and the id still belongs
  // to an element with the signature it was written to: no element ever inherits another's
  // text.
  lemma TypedTextStaysPut(steps: seq<Step>)
    ensures RefsOk(Run(steps).target.refs)
    ensures TextOk(Run(steps))
    ensures ShownOk(Run(steps).target)
  {
    EveryRunKeepsInv(steps);
  }

  // Main result 6. Over every continuation of a session an id names one signature for
  // ever, and an id that was dropped is never handed out again.
  lemma {:induction false} NamesAreForever(steps: seq<Step>, more: seq<Step>)
    ensures Forever(Run(steps), Run(steps + more))
    ensures forall id :: id in Run(steps).target.refs ==>
      id in Run(steps).named && Run(steps).named[id] == Run(steps).target.refs[id].signature
  {
    EveryRunKeepsInv(steps);
    if more == [] {
      assert steps + more == steps;
    } else {
      var n := |more| - 1;
      var before := steps + more[..n];
      NamesAreForever(steps, more[..n]);
      StepIsForever(before, more[n]);
      assert steps + more == before + [more[n]];
      ForeverTransitive(Run(steps), Run(before), Run(steps + more));
    }
  }

  lemma StepIsForever(steps: seq<Step>, step: Step)
    ensures Forever(Run(steps), Run(steps + [step]))
  {
    EveryRunKeepsInv(steps);
    StepKeepsInv(Run(steps), step);
    assert (steps + [step])[..|steps|] == steps;
  }

  lemma ForeverTransitive(s0: Session, s1: Session, s2: Session)
    requires Forever(s0, s1) && Forever(s1, s2)
    ensures Forever(s0, s2)
  {
  }
}
