// Reference ids of the native browser backend: how they survive page rebuilds, and why
// typed text stays with the element it was typed into.
module NativeRefs {
  import opened Prelude
  import Decimal

  datatype Ref = Ref(
    role: string,
    name: string,
    text: string,
    tag: string,
    href: string,
    signature: string,
    formId: string,
    inputName: string,
    inputType: string,
    submitControl: bool)

  // The elements the page's markup yields, names already defaulted.
  datatype Element =
    | Link(name: string, text: string, href: string)
    | Input(name: string, inputType: string, formId: string, inputName: string)
    | TextArea(name: string, text: string, formId: string, inputName: string)
    | Button(name: string, inputType: string, formId: string)

  datatype Page = Page(title: string, elements: seq<Element>)

  // refs and typedValues of one target.
  datatype Target = Target(refs: map<string, Ref>, typed: map<string, string>)

  // ------------------------------------------------------------------
  // What the page scan produces: a lookup key and a record for each element

  datatype Entry = Entry(key: string, record: Ref)

  function InputRole(inputType: string): string {
    if inputType == "submit" || inputType == "image" then "button"
    else if inputType == "search" then "searchbox"
    else "textbox"
  }

  function Signature(e: Element): string {
    match e
    case Link(name, _, href) => "a|" + name + "|" + href
    case Input(name, typ, formId, _) => "input|" + InputRole(typ) + "|" + name + "|" + formId + "|" + typ
    case TextArea(name, _, formId, _) => "textarea|textbox|" + name + "|" + formId
    case Button(name, typ, formId) => "button|" + name + "|" + formId + "|" + typ
  }

  function Record(e: Element): Ref {
    match e
    case Link(name, text, href) => Ref("link", name, text, "a", href, Signature(e), "", "", "", false)
    case Input(name, typ, formId, inputName) =>
      var submit := typ == "submit" || typ == "image";
      Ref(InputRole(typ), name, if submit then name else "", "input", "", Signature(e), formId, inputName, typ, submit)
    case TextArea(name, text, formId, inputName) =>
      Ref("textbox", name, text, "textarea", "", Signature(e), formId, inputName, "textarea", false)
    case Button(name, typ, formId) =>
      Ref("button", name, name, "button", "", Signature(e), formId, "", typ, typ == "" || typ == "submit")
  }

  const DOC_KEY := "doc"
  const DOC_SIGNATURE := "document"

  // The document root is looked up as "doc" but its record carries "document".
  function DocEntry(title: string): Entry {
    var name := if title == "" then "document" else title;
    Entry(DOC_KEY, Ref("document", name, "", "document", "", DOC_SIGNATURE, "", "", "", false))
  }

  function Parsed(page: Page): (r: seq<Entry>)
    ensures |r| == |page.elements| + 1
  {
    [DocEntry(page.title)]
    + seq(|page.elements|, i requires 0 <= i < |page.elements| =>
            Entry(Signature(page.elements[i]), Record(page.elements[i])))
  }

  // ------------------------------------------------------------------
  // rebuildRefs

  function Id(n: nat): string {
    "e" + Decimal.ToDecimal(n)
  }

  // The number in an id of the form e<digits>.
  function IdNumber(id: string): Option<nat> {
    if |id| > 1 && id[0] == 'e' && Decimal.AllDigits(id[1..]) then Some(Decimal.FromDecimal(id[1..])) else None
  }

  predicate TakesText(role: string) {
    role == "textbox" || role == "searchbox" || role == "combobox"
  }

  // The key order of std::map.
  predicate Less(a: string, b: string) {
    if b == "" then false
    else if a == "" then true
    else a[0] < b[0] || (a[0] == b[0] && Less(a[1..], b[1..]))
  }

  // existingBySig: for every non-empty signature the last id, in key order, that has it.
  ghost predicate IsIndex(refs: map<string, Ref>, index: map<string, string>) {
    && (forall id :: id in refs && refs[id].signature != "" ==>
          refs[id].signature in index && (id == index[refs[id].signature] || Less(id, index[refs[id].signature])))
    && (forall sig :: sig in index ==> sig != "" && index[sig] in refs && refs[index[sig]].signature == sig)
  }

  // The first number above every id in use.
  ghost predicate IsNextId(refs: map<string, Ref>, next: nat) {
    && next >= 1
    && (forall id :: id in refs && IdNumber(id).Some? ==> IdNumber(id).value < next)
    && (next > 1 ==> exists id :: id in refs && IdNumber(id) == Some(next - 1 as nat))
  }

  lemma {:induction false} LessIsTotal(a: string, b: string)
    ensures a == b || Less(a, b) || Less(b, a)
    ensures !(Less(a, b) && Less(b, a))
  {
    if a != "" && b != "" {
      LessIsTotal(a[1..], b[1..]);
      assert a == [a[0]] + a[1..] && b == [b[0]] + b[1..];
    }
  }

  lemma {:induction false} LessIsTransitive(a: string, b: string, c: string)
    requires Less(a, b) && Less(b, c)
    ensures Less(a, c)
  {
    if a != "" && a[0] == b[0] == c[0] {
      LessIsTransitive(a[1..], b[1..], c[1..]);
    }
  }

  ghost predicate IsLeast(id: string, ids: set<string>) {
    id in ids && forall other :: other in ids && other != id ==> Less(id, other)
  }

  lemma {:induction false} LeastExists(ids: set<string>) returns (least: string)
    requires exists id :: id in ids
    ensures IsLeast(least, ids)
    decreases |ids|
  {
    var id :| id in ids;
    var rest := ids - {id};
    if exists other :: other in rest {
      var next := LeastExists(rest);
      LessIsTotal(id, next);
      least := if Less(id, next) then id else next;
      forall other | other in ids && other != least
        ensures Less(least, other)
      {
        if least == id && other != next {
          LessIsTransitive(id, next, other);
        }
      }
    } else {
      least := id;
    }
  }

  lemma OneIndex(refs: map<string, Ref>, a: map<string, string>, b: map<string, string>)
    requires IsIndex(refs, a) && IsIndex(refs, b)
    ensures a == b
  {
    forall sig | sig in a
      ensures sig in b && a[sig] == b[sig]
    {
      LessIsTotal(a[sig], b[sig]);
    }
    assert a.Keys == b.Keys;
  }

  lemma OneNextId(refs: map<string, Ref>, m: nat, n: nat)
    requires IsNextId(refs, m) && IsNextId(refs, n)
    ensures m == n
  {
    if m > 1 {
      var id :| id in refs && IdNumber(id) == Some(m - 1 as nat);
    }
    if n > 1 {
      var id :| id in refs && IdNumber(id) == Some(n - 1 as nat);
    }
  }

  // So a rebuild is decided by the target and the page alone.
  lemma OneRebuild(t: Target, page: Page, index: map<string, string>, next: nat, index': map<string, string>,
                   next': nat)
    requires IsIndex(t.refs, index) && IsNextId(t.refs, next)
    requires IsIndex(t.refs, index') && IsNextId(t.refs, next')
    ensures Rebuild(t, page, index, next) == Rebuild(t, page, index', next')
  {
    OneIndex(t.refs, index, index');
    OneNextId(t.refs, next, next');
  }

  // The ids handed out to the first entries, in order.
  function Assigned(entries: seq<Entry>, index: map<string, string>, next: nat): (r: seq<string>)
    ensures |r| == |entries|
  {
    seq(|entries|, i requires 0 <= i < |entries| => IdAt(entries, index, next, i))
  }

  function IdAt(entries: seq<Entry>, index: map<string, string>, next: nat, i: nat): string
    requires i < |entries|
  {
    if entries[i].key in index then index[entries[i].key] else Id(next + NewOnes(entries[..i], index))
  }

  // How many entries are not in the index, hence got a new id.
  function NewOnes(entries: seq<Entry>, index: map<string, string>): nat {
    if entries == [] then 0
    else NewOnes(entries[..|entries| - 1], index) + if entries[|entries| - 1].key in index then 0 else 1
  }

  function WithText(r: Ref, id: string, typed: map<string, string>): Ref {
    if id in typed && TakesText(r.role) then r.(text := typed[id]) else r
  }

  function Collect(entries: seq<Entry>, ids: seq<string>, typed: map<string, string>): map<string, Ref>
    requires |ids| == |entries|
  {
    if entries == [] then map[]
    else
      var n := |entries| - 1;
      Collect(entries[..n], ids[..n], typed)[ids[n] := WithText(entries[n].record, ids[n], typed)]
  }

  // The records of a scan under the ids it hands out.
  function Scanned(entries: seq<Entry>, index: map<string, string>, next: nat,
                   typed: map<string, string>): map<string, Ref> {
    Collect(entries, Assigned(entries, index, next), typed)
  }

  function Rebuild(t: Target, page: Page, index: map<string, string>, next: nat): Target {
    var refs := Scanned(Parsed(page), index, next, t.typed);
    Target(refs, map id | id in t.typed && id in refs :: t.typed[id])
  }

  // One more entry of the scan.
  lemma ScanStep(entries: seq<Entry>, i: nat, index: map<string, string>, next: nat, typed: map<string, string>)
    requires i < |entries|
    ensures
      var before, after := entries[..i], entries[..i + 1];
      var key := entries[i].key;
      var id := if key in index then index[key] else Id(next + NewOnes(before, index));
      && NewOnes(after, index) == NewOnes(before, index) + (if key in index then 0 else 1)
      && Scanned(after, index, next, typed)
          == Scanned(before, index, next, typed)[id := WithText(entries[i].record, id, typed)]
  {
    var before, after := entries[..i], entries[..i + 1];
    assert after[..i] == before;
    AssignedStep(entries, i, index, next);
    assert before + [entries[i]] == after;
    CollectStep(before, entries[i], Assigned(before, index, next), IdAt(entries, index, next, i), typed);
  }

  lemma CollectStep(entries: seq<Entry>, entry: Entry, ids: seq<string>, id: string, typed: map<string, string>)
    requires |ids| == |entries|
    ensures Collect(entries + [entry], ids + [id], typed)
      == Collect(entries, ids, typed)[id := WithText(entry.record, id, typed)]
  {
    var n := |entries|;
    assert (entries + [entry])[..n] == entries && (ids + [id])[..n] == ids;
  }

  lemma AssignedStep(entries: seq<Entry>, i: nat, index: map<string, string>, next: nat)
    requires i < |entries|
    ensures Assigned(entries[..i + 1], index, next)
      == Assigned(entries[..i], index, next) + [IdAt(entries, index, next, i)]
  {
    var before, after := entries[..i], entries[..i + 1];
    forall k | 0 <= k <= i
      ensures after[..k] == entries[..k] && (k < i ==> before[..k] == entries[..k])
    {
    }
  }

  // ------------------------------------------------------------------
  // The object

  class NativeTarget {
    var refs: map<string, Ref>
    var typedValues: map<string, string>

    function View(): Target
      reads this
    {
      Target(refs, typedValues)
    }

    constructor ()
      ensures View() == Target(map[], map[])
    {
      refs := map[];
      typedValues := map[];
    }

    method RebuildRefs(page: Page) returns (ghost index: map<string, string>, ghost next: nat)
      modifies this
      ensures IsIndex(old(refs), index) && IsNextId(old(refs), next)
      ensures View() == Rebuild(old(View()), page, index, next)
    {
      var parsed := Parsed(page);
      var existingBySig := IndexRefs();
      var nextId := FirstFreeNumber();
      index, next := existingBySig, nextId;

      var nextRefs := AssignIds(parsed, existingBySig, nextId, typedValues);
      var nextTyped := map id | id in typedValues && id in nextRefs :: typedValues[id];
      refs := nextRefs;
      typedValues := nextTyped;
    }

    // The loop over the parsed elements.
    static method AssignIds(parsed: seq<Entry>, existingBySig: map<string, string>, next: nat,
                            typed: map<string, string>)
      returns (nextRefs: map<string, Ref>)
      ensures nextRefs == Scanned(parsed, existingBySig, next, typed)
    {
      nextRefs := map[];
      var nextId := next;
      for i := 0 to |parsed|
        invariant nextId == next + NewOnes(parsed[..i], existingBySig)
        invariant nextRefs == Scanned(parsed[..i], existingBySig, next, typed)
      {
        ScanStep(parsed, i, existingBySig, next, typed);
        ghost var before := nextRefs;
        var entry := parsed[i];
        var rid;
        if entry.key in existingBySig {
          rid := existingBySig[entry.key];
        } else {
          rid := Id(nextId);
          nextId := nextId + 1;
        }
        var r := entry.record;
        if rid in typed && TakesText(r.role) {
          r := r.(text := typed[rid]);
        }
        nextRefs := nextRefs[rid := r];
        assert r == WithText(entry.record, rid, typed);
        assert nextRefs == before[rid := WithText(entry.record, rid, typed)];
      }
      assert parsed[..|parsed|] == parsed;
    }

    method IndexRefs() returns (index: map<string, string>)
      ensures IsIndex(refs, index)
    {
      index := map[];
      var left := refs.Keys;
      while left != {}
        invariant left <= refs.Keys
        invariant forall done, id :: done in refs.Keys - left && id in left ==> Less(done, id)
        invariant forall id :: id in refs.Keys - left && refs[id].signature != "" ==>
          refs[id].signature in index && (id == index[refs[id].signature] || Less(id, index[refs[id].signature]))
        invariant forall sig :: sig in index ==>
          sig != "" && index[sig] in refs.Keys - left && refs[index[sig]].signature == sig
        decreases left
      {
        ghost var least := LeastExists(left);
        var id :| id in left && forall other :: other in left && other != id ==> Less(id, other);
        left := left - {id};
        if refs[id].signature != "" {
          index := index[refs[id].signature := id];
        }
      }
    }

    method FirstFreeNumber() returns (next: nat)
      ensures IsNextId(refs, next)
    {
      next := 1;
      var left := refs.Keys;
      while left != {}
        invariant left <= refs.Keys && next >= 1
        invariant forall id :: id in refs.Keys - left && IdNumber(id).Some? ==> IdNumber(id).value < next
        invariant next > 1 ==> exists id :: id in refs && IdNumber(id) == Some(next - 1 as nat)
        decreases left
      {
        var id :| id in left;
        left := left - {id};
        if IdNumber(id).Some? && IdNumber(id).value + 1 > next {
          next := IdNumber(id).value + 1;
        }
      }
    }

    // The evaluate action when its script leaves a value for the element behind; `page` is
    // where the script ended up.
    method SetValue(id: string, text: string, page: Page)
      returns (found: bool, ghost index: map<string, string>, ghost next: nat)
      modifies this
      ensures found <==> id in old(refs)
      ensures !found ==> View() == old(View())
      ensures found ==>
        && IsIndex(old(refs), index) && IsNextId(old(refs), next)
        && View() == Rebuild(Target(old(refs), old(typedValues)[id := text]), page, index, next)
    {
      index, next := map[], 1;
      if id !in refs {
        return false, index, next;
      }
      typedValues := typedValues[id := text];
      index, next := RebuildRefs(page);
      return true, index, next;
    }

    // nativeType on a text control, as far as it concerns the target.
    method TypeText(id: string, text: string, page: Page)
      returns (typed: bool, ghost index: map<string, string>, ghost next: nat)
      modifies this
      ensures typed <==> id in old(refs) && TakesText(old(refs)[id].role)
      ensures !typed ==> View() == old(View())
      ensures typed ==>
        && IsIndex(old(refs), index) && IsNextId(old(refs), next)
        && View() == Rebuild(Target(old(refs), old(typedValues)[id := text]), page, index, next)
    {
      index, next := map[], 1;
      if id !in refs || !TakesText(refs[id].role) {
        return false, index, next;
      }
      typedValues := typedValues[id := text];
      index, next := RebuildRefs(page);
      return true, index, next;
    }
  }
}
