// What signatures tell apart, and what records and ids say: stated on the elements' own
// fields, for the stability results that are stated on signatures.
module RefSignatures {
  import opened Prelude
  import opened NativeRefs
  import Decimal

  // ------------------------------------------------------------------
  // Signatures

  // Two elements of one kind that agree on what the kind is known by.
  predicate SameElement(e: Element, f: Element) {
    match (e, f)
    case (Link(_, _, _), Link(_, _, _)) => e.name == f.name && e.href == f.href
    case (Input(_, _, _, _), Input(_, _, _, _)) =>
      e.name == f.name && e.formId == f.formId && e.inputType == f.inputType
    case (TextArea(_, _, _, _), TextArea(_, _, _, _)) => e.name == f.name && e.formId == f.formId
    case (Button(_, _, _), Button(_, _, _)) => e.name == f.name && e.formId == f.formId && e.inputType == f.inputType
    case _ => false
  }

  // No field that the kind is known by holds the separator.
  predicate NoBars(e: Element) {
    && '|' !in e.name
    && (e.Link? ==> '|' !in e.href)
    && (!e.Link? ==> '|' !in e.formId)
    && (e.Input? || e.Button? ==> '|' !in e.inputType)
  }

  // The first field ends at the first bar.
  lemma FirstField(a: string, x: string, b: string, y: string)
    requires '|' !in a && a + "|" + x == b + "|" + y
    ensures |a| <= |b|
    ensures |a| == |b| ==> a == b && x == y
    ensures |a| < |b| ==> b[|a|] == '|' && x == b[|a| + 1..] + "|" + y
    ensures |a| < |b| ==> '|' in x
  {
    var s := a + "|" + x;
    assert s[..|a|] == a && s[|a|] == '|' && s[|a| + 1..] == x;
    assert s[..|b|] == b && s[|b|] == '|' && s[|b| + 1..] == y;
    assert forall k :: 0 <= k < |a| ==> s[k] == a[k] && a[k] in a;
    if |a| < |b| {
      assert s[|a| + 1..] == b[|a| + 1..] + "|" + y;
      assert x[|b| - |a| - 1] == '|';
    }
  }

  lemma SameFirstField(a: string, x: string, b: string, y: string)
    requires '|' !in a && '|' !in b && a + "|" + x == b + "|" + y
    ensures a == b && x == y
  {
    FirstField(a, x, b, y);
    FirstField(b, y, a, x);
  }

  // The kind's own fields after its first words.
  function Fields(e: Element): string {
    match e
    case Link(name, _, href) => name + "|" + href
    case Input(name, typ, formId, _) => name + "|" + (formId + "|" + typ)
    case TextArea(name, _, formId, _) => name + "|" + formId
    case Button(name, typ, formId) => name + "|" + (formId + "|" + typ)
  }

  lemma SignatureParts(e: Element)
    ensures Signature(e) ==
      (match e
       case Link(_, _, _) => "a|" + Fields(e)
       case Input(_, typ, _, _) => "input|" + (InputRole(typ) + "|" + Fields(e))
       case TextArea(_, _, _, _) => "textarea|textbox|" + Fields(e)
       case Button(_, _, _) => "button|" + Fields(e))
  {
    match e
    case Link(name, _, href) => JoinTwo("a|", name, href);
    case Input(name, typ, formId, _) => JoinFour("input|", InputRole(typ), name, formId, typ);
    case TextArea(name, _, formId, _) => JoinTwo("textarea|textbox|", name, formId);
    case Button(name, typ, formId) => JoinThree("button|", name, formId, typ);
  }

  lemma JoinTwo(p: string, a: string, b: string)
    ensures p + a + "|" + b == p + (a + "|" + b)
  {
  }

  lemma JoinThree(p: string, a: string, b: string, c: string)
    ensures p + a + "|" + b + "|" + c == p + (a + "|" + (b + "|" + c))
  {
  }

  lemma JoinFour(p: string, r: string, a: string, b: string, c: string)
    ensures p + r + "|" + a + "|" + b + "|" + c == p + (r + "|" + (a + "|" + (b + "|" + c)))
  {
    JoinThree(r + "|", a, b, c);
    assert p + r + "|" + a + "|" + b + "|" + c == p + (r + "|" + a + "|" + b + "|" + c);
  }

  // Equal fields within one kind and role make equal signatures.
  lemma SameFields(e: Element, f: Element)
    requires Fields(e) == Fields(f)
    requires (e.Link? <==> f.Link?) && (e.Input? <==> f.Input?) && (e.TextArea? <==> f.TextArea?)
    requires e.Input? ==> InputRole(e.inputType) == InputRole(f.inputType)
    ensures Signature(e) == Signature(f)
  {
    SignatureParts(e);
    SignatureParts(f);
  }

  // The first letters tell the kinds apart.
  lemma SignatureKind(e: Element)
    ensures var s := Signature(e);
      |s| > 1 && (e.Link? <==> s[1] == '|') && (e.Input? <==> s[0] == 'i') && (e.TextArea? <==> s[0] == 't')
  {
    SignatureParts(e);
  }

  // One signature only within one kind, and with one role.
  lemma SignatureHead(e: Element, f: Element)
    requires Signature(e) == Signature(f)
    ensures Fields(e) == Fields(f)
    ensures (e.Link? <==> f.Link?) && (e.Input? <==> f.Input?) && (e.TextArea? <==> f.TextArea?)
    ensures e.Input? ==> InputRole(e.inputType) == InputRole(f.inputType)
  {
    SignatureKind(e);
    SignatureKind(f);
    SignatureParts(e);
    SignatureParts(f);
    match e
    case Link(_, _, _) => AfterPrefix("a|", Fields(e), Fields(f));
    case TextArea(_, _, _, _) => AfterPrefix("textarea|textbox|", Fields(e), Fields(f));
    case Button(_, _, _) => AfterPrefix("button|", Fields(e), Fields(f));
    case Input(_, typ, _, _) =>
      AfterPrefix("input|", InputRole(typ) + "|" + Fields(e), InputRole(f.inputType) + "|" + Fields(f));
      SameFirstField(InputRole(typ), Fields(e), InputRole(f.inputType), Fields(f));
  }

  lemma AfterPrefix(p: string, x: string, y: string)
    requires p + x == p + y
    ensures x == y
  {
    assert (p + x)[|p|..] == x && (p + y)[|p|..] == y;
  }

  // Main result 1. Elements without bars in their fields have one signature exactly when
  // they are of one kind and agree on its own fields.
  lemma SignatureMeaning(e: Element, f: Element)
    ensures SameElement(e, f) ==> Signature(e) == Signature(f)
    ensures NoBars(e) && NoBars(f) ==> (Signature(e) == Signature(f) <==> SameElement(e, f))
  {
    if Signature(e) == Signature(f) && NoBars(e) && NoBars(f) {
      SignatureHead(e, f);
      match e
      case Link(name, _, href) => SameFirstField(name, href, f.name, f.href);
      case TextArea(name, _, formId, _) => SameFirstField(name, formId, f.name, f.formId);
      case Input(name, typ, formId, _) =>
        SameFirstField(name, formId + "|" + typ, f.name, f.formId + "|" + f.inputType);
        SameFirstField(formId, typ, f.formId, f.inputType);
      case Button(name, typ, formId) =>
        SameFirstField(name, formId + "|" + typ, f.name, f.formId + "|" + f.inputType);
        SameFirstField(formId, typ, f.formId, f.inputType);
    }
  }

  // A bar at which the fields can be cut differently: any, but a cut inside the type of an
  // input must leave it its role.
  predicate Cuttable(e: Element) {
    match e
    case Link(name, _, href) => '|' in name || '|' in href
    case Input(name, typ, formId, _) =>
      '|' in name || '|' in formId ||
      exists i :: 0 <= i < |typ| && typ[i] == '|' && InputRole(typ[i + 1..]) == InputRole(typ)
    case TextArea(name, _, formId, _) => '|' in name || '|' in formId
    case Button(name, typ, formId) => '|' in name || '|' in formId || '|' in typ
  }

  // Main result 2. And bars are exactly what can make different elements one: an element
  // shares its signature with a different one if and only if its fields can be cut
  // differently.
  lemma SharedExactly(e: Element)
    ensures Cuttable(e) <==> exists f :: Signature(f) == Signature(e) && !SameElement(e, f)
  {
    if Cuttable(e) {
      var f := CutElsewhere(e);
    }
    if f :| Signature(f) == Signature(e) && !SameElement(e, f) {
      SharedIsCuttable(e, f);
    }
  }

  lemma CutAt(s: string) returns (a: string, b: string)
    requires '|' in s
    ensures s == a + "|" + b
  {
    var i :| 0 <= i < |s| && s[i] == '|';
    a, b := s[..i], s[i + 1..];
  }

  lemma CutElsewhere(e: Element) returns (f: Element)
    requires Cuttable(e)
    ensures Signature(f) == Signature(e) && !SameElement(e, f)
  {
    match e {
      case Link(name, text, href) =>
        var a, b := CutTwo(name, href);
        f := Link(a, text, b);
      case TextArea(name, text, formId, inputName) =>
        var a, b := CutTwo(name, formId);
        f := TextArea(a, text, b, inputName);
      case Button(name, typ, formId) =>
        var a, b, c := CutThree(name, formId, typ);
        f := Button(a, c, b);
      case Input(name, typ, formId, inputName) =>
        if '|' in name || '|' in formId {
          var a, b := CutTwo(name, formId);
          f := Input(a, typ, b, inputName);
          ThirdStays(name, formId, a, b, typ);
        } else {
          var i :| 0 <= i < |typ| && typ[i] == '|' && InputRole(typ[i + 1..]) == InputRole(typ);
          f := Input(name, typ[i + 1..], formId + "|" + typ[..i], inputName);
          CutThird(formId, typ, i);
          assert |f.inputType| < |typ|;
        }
    }
    SameFields(e, f);
  }

  lemma CutThree(x: string, y: string, z: string) returns (a: string, b: string, c: string)
    requires '|' in x || '|' in y || '|' in z
    ensures a + "|" + (b + "|" + c) == x + "|" + (y + "|" + z) && !(a == x && b == y && c == z)
  {
    if '|' in x || '|' in y {
      a, b := CutTwo(x, y);
      c := z;
      ThirdStays(x, y, a, b, z);
    } else {
      var i :| 0 <= i < |z| && z[i] == '|';
      a, b, c := x, y + "|" + z[..i], z[i + 1..];
      CutThird(y, z, i);
    }
  }

  lemma CutThird(y: string, z: string, i: nat)
    requires i < |z| && z[i] == '|'
    ensures (y + "|" + z[..i]) + "|" + z[i + 1..] == y + "|" + z
  {
    assert z == z[..i] + "|" + z[i + 1..];
    JoinTwo(y + "|", z[..i], z[i + 1..]);
  }

  lemma ThirdStays(x: string, y: string, a: string, b: string, c: string)
    requires a + "|" + b == x + "|" + y
    ensures a + "|" + (b + "|" + c) == x + "|" + (y + "|" + c)
  {
    assert a + "|" + (b + "|" + c) == (a + "|" + b) + "|" + c;
    assert x + "|" + (y + "|" + c) == (x + "|" + y) + "|" + c;
  }

  // Two fields with a bar in either, cut elsewhere.
  lemma CutTwo(x: string, y: string) returns (a: string, b: string)
    requires '|' in x || '|' in y
    ensures a + "|" + b == x + "|" + y && a != x
  {
    if '|' in x {
      var p, q := CutAt(x);
      a, b := p, q + "|" + y;
      assert p + "|" + (q + "|" + y) == x + "|" + y;
    } else {
      var p, q := CutAt(y);
      a, b := x + "|" + p, q;
      assert (x + "|" + p) + "|" + q == x + "|" + y;
    }
  }

  lemma SharedIsCuttable(e: Element, f: Element)
    requires Signature(f) == Signature(e) && !SameElement(e, f)
    ensures Cuttable(e)
  {
    SignatureHead(e, f);
    if !Cuttable(e) {
      match e
      case Link(name, _, href) => TwoFieldsSame(name, href, f.name, f.href);
      case TextArea(name, _, formId, _) => TwoFieldsSame(name, formId, f.name, f.formId);
      case Button(name, typ, formId) =>
        var k := LastFieldCut(name, formId, typ, f.name, f.formId, f.inputType);
      case Input(name, typ, formId, _) =>
        var k := LastFieldCut(name, formId, typ, f.name, f.formId, f.inputType);
    }
  }

  lemma TwoFieldsSame(a: string, x: string, b: string, y: string)
    requires '|' !in a && '|' !in x && a + "|" + x == b + "|" + y
    ensures a == b && x == y
  {
    FirstField(a, x, b, y);
  }

  // Without bars in the first two fields, another cut can only be one inside the third.
  lemma LastFieldCut(a: string, b: string, c: string, a': string, b': string, c': string) returns (k: nat)
    requires '|' !in a && '|' !in b
    requires a + "|" + (b + "|" + c) == a' + "|" + (b' + "|" + c')
    ensures (a == a' && b == b' && c == c') || (k < |c| && c[k] == '|' && c' == c[k + 1..])
  {
    k := 0;
    FirstField(a, b + "|" + c, a', b' + "|" + c');
    if |a| == |a'| {
      FirstField(b, c, b', c');
      if |b| < |b'| {
        k := CutHere(c, b'[|b| + 1..], c');
      }
    } else {
      var rest := a'[|a| + 1..];
      assert b + "|" + c == rest + "|" + (b' + "|" + c');
      FirstField(b, c, rest, b' + "|" + c');
      if |b| == |rest| {
        k := CutHere(c, b', c');
      } else {
        var more := rest[|b| + 1..];
        assert c == more + "|" + (b' + "|" + c') == (more + "|" + b') + "|" + c';
        k := CutHere(c, more + "|" + b', c');
      }
    }
  }

  lemma CutHere(c: string, p: string, q: string) returns (k: nat)
    requires c == p + "|" + q
    ensures k < |c| && c[k] == '|' && q == c[k + 1..]
  {
    k := |p|;
  }

  // ------------------------------------------------------------------
  // Records and ids

  // What the record of an element says.
  lemma RecordMeaning(e: Element)
    ensures var r := Record(e);
      && r.signature == Signature(e) && r.name == e.name
      && (e.Link? ==> r == Ref("link", e.name, e.text, "a", e.href, r.signature, "", "", "", false))
      && (e.TextArea? ==>
            r == Ref("textbox", e.name, e.text, "textarea", "", r.signature, e.formId, e.inputName, "textarea", false))
      && (e.Button? ==>
            r == Ref("button", e.name, e.name, "button", "", r.signature, e.formId, "", e.inputType,
                     e.inputType == "" || e.inputType == "submit"))
      && (e.Input? ==>
            var submit := e.inputType == "submit" || e.inputType == "image";
            r == Ref(if submit then "button" else if e.inputType == "search" then "searchbox" else "textbox", e.name,
                     if submit then e.name else "", "input", "", r.signature, e.formId, e.inputName, e.inputType,
                     submit))
    // text is typed into text areas and inputs that submit nothing
    ensures TakesText(Record(e).role) <==>
      e.TextArea? || (e.Input? && e.inputType != "submit" && e.inputType != "image")
  {
  }

  // The root: looked up under one name, recorded under another, called by the page's title.
  lemma RootMeaning(page: Page)
    ensures Parsed(page)[0] ==
      Entry("doc", Ref("document", if page.title == "" then "document" else page.title, "", "document", "",
                       "document", "", "", "", false))
    ensures forall i :: 0 <= i < |page.elements| ==>
      Parsed(page)[i + 1] == Entry(Signature(page.elements[i]), Record(page.elements[i]))
    ensures |Parsed(page)| == |page.elements| + 1
  {
  }

  // An id counts when it is "e" and at least one digit, all digits.
  lemma IdNumberMeaning(id: string)
    ensures IdNumber(id).Some? <==>
      |id| >= 2 && id[0] == 'e' && forall i :: 1 <= i < |id| ==> '0' <= id[i] <= '9'
  {
    if |id| >= 2 && id[0] == 'e' {
      assert forall i :: 0 <= i < |id[1..]| ==> id[1..][i] == id[i + 1];
      assert forall i :: 1 <= i < |id| ==> id[1..][i - 1] == id[i];
    }
  }

  // The record as it is stored: with the typed text where text is typed.
  lemma StoredMeaning(e: Element, id: string, typed: map<string, string>)
    ensures
      var takes := e.TextArea? || (e.Input? && e.inputType != "submit" && e.inputType != "image");
      WithText(Record(e), id, typed) == if id in typed && takes then Record(e).(text := typed[id]) else Record(e)
  {
    RecordMeaning(e);
  }

  // The order of ids: a proper prefix first, otherwise by the first difference.
  lemma {:induction false} LessMeaning(a: string, b: string)
    ensures Less(a, b) <==> a < b || DiffersFirst(a, b)
  {
    if a != "" && b != "" {
      HeadDiffers(a, b);
      if a[0] == b[0] {
        LessMeaning(a[1..], b[1..]);
        TailLess(a, b);
      }
    }
  }

  ghost predicate DiffersFirst(a: string, b: string) {
    exists k :: 0 <= k < |a| && k < |b| && a[..k] == b[..k] && a[k] < b[k]
  }

  lemma HeadDiffers(a: string, b: string)
    requires a != "" && b != ""
    ensures a[0] != b[0] ==> (DiffersFirst(a, b) <==> a[0] < b[0])
  {
    forall k | 0 < k <= |a| && k <= |b| && a[..k] == b[..k]
      ensures a[0] == b[0]
    {
      assert a[..k][0] == b[..k][0];
    }
    assert a[..0] == b[..0];
  }

  lemma TailLess(a: string, b: string)
    requires a != "" && b != "" && a[0] == b[0]
    ensures a < b <==> a[1..] < b[1..]
    ensures DiffersFirst(a, b) <==> DiffersFirst(a[1..], b[1..])
  {
    TailDiffers(a, b);
    HeadDiffersToo(a, b);
    assert a == [a[0]] + a[1..] && b == [b[0]] + b[1..];
  }

  lemma TailDiffers(a: string, b: string)
    requires a != "" && b != "" && a[0] == b[0]
    ensures DiffersFirst(a, b) ==> DiffersFirst(a[1..], b[1..])
  {
    if k :| 0 <= k < |a| && k < |b| && a[..k] == b[..k] && a[k] < b[k] {
      assert a[1..][..k - 1] == a[..k][1..] && b[1..][..k - 1] == b[..k][1..];
      assert a[1..][k - 1] < b[1..][k - 1];
    }
  }

  lemma HeadDiffersToo(a: string, b: string)
    requires a != "" && b != "" && a[0] == b[0]
    ensures DiffersFirst(a[1..], b[1..]) ==> DiffersFirst(a, b)
  {
    if k :| 0 <= k < |a[1..]| && k < |b[1..]| && a[1..][..k] == b[1..][..k] && a[1..][k] < b[1..][k] {
      assert a[..k + 1] == [a[0]] + a[1..][..k] && b[..k + 1] == [b[0]] + b[1..][..k];
      assert a[k + 1] < b[k + 1];
    }
  }

  // The scan numbers its new ids on, from the first free number.
  lemma NewIdMeaning(entries: seq<Entry>, index: map<string, string>, next: nat, i: nat)
    requires i < |entries|
    ensures var id := Assigned(entries, index, next)[i];
      if entries[i].key in index then id == index[entries[i].key]
      else
        && |id| > 1 && id[0] == 'e' && Decimal.AllDigits(id[1..])
        && Decimal.FromDecimal(id[1..]) == next + |NewBefore(entries, index, i)|
  {
    if entries[i].key !in index {
      NewOnesIsCount(entries, index, i);
      Decimal.DecimalRoundTrip(next + NewOnes(entries[..i], index));
      assert Id(next + NewOnes(entries[..i], index))[1..] == Decimal.ToDecimal(next + NewOnes(entries[..i], index));
    }
  }

  ghost function NewBefore(entries: seq<Entry>, index: map<string, string>, i: nat): set<int>
    requires i <= |entries|
  {
    set k | 0 <= k < i && entries[k].key !in index
  }

  lemma {:induction false} NewOnesIsCount(entries: seq<Entry>, index: map<string, string>, i: nat)
    requires i <= |entries|
    ensures NewOnes(entries[..i], index) == |NewBefore(entries, index, i)|
  {
    if i == 0 {
      assert NewBefore(entries, index, 0) == {};
    } else {
      NewOnesIsCount(entries, index, i - 1);
      assert entries[..i][..i - 1] == entries[..i - 1];
      assert NewBefore(entries, index, i)
        == NewBefore(entries, index, i - 1) + if entries[i - 1].key in index then {} else {i - 1};
    }
  }
}
