// Percent-encoding of a submitted form, and the decoder the browser relay uses for
// data: pages, on bytes.
module UrlQuery {
  import opened Prelude

  newtype byte = x: int | 0 <= x < 256

  type Bytes = seq<byte>

  const SPACE: byte := 32
  const PERCENT: byte := 37
  const AMPERSAND: byte := 38
  const PLUS: byte := 43
  const MINUS: byte := 45
  const EQUALS: byte := 61
  const QUESTION: byte := 63

  predicate Digit(c: byte) {
    48 <= c <= 57
  }

  predicate Alpha(c: byte) {
    65 <= c <= 90 || 97 <= c <= 122
  }

  // The unreserved set of RFC 3986, section 2.3: letters, digits and - . _ ~
  predicate Unreserved(c: byte) {
    Alpha(c) || Digit(c) || c == MINUS || c == 46 || c == 95 || c == 126
  }

  // ------------------------------------------------------------------
  // The encoder

  function UpperHex(n: byte): byte
    requires n < 16
  {
    if n < 10 then 48 + n else 55 + n
  }

  function EncodeByte(c: byte): Bytes {
    if Unreserved(c) then [c]
    else if c == SPACE then [PLUS]
    else [PERCENT, UpperHex(c / 16), UpperHex(c % 16)]
  }

  function Encoded(s: Bytes): Bytes {
    if s == [] then [] else Encoded(s[..|s| - 1]) + EncodeByte(s[|s| - 1])
  }

  method UrlEncode(s: Bytes) returns (out: Bytes)
    ensures out == Encoded(s)
    ensures Decoded(out) == s
    ensures AMPERSAND !in out && EQUALS !in out && QUESTION !in out
  {
    out := [];
    for i := 0 to |s|
      invariant out == Encoded(s[..i])
    {
      EncodedStep(s, i);
      out := out + EncodeByte(s[i]);
    }
    assert s[..|s|] == s;
    DecodeEncode(s);
    NoSeparators(s);
  }

  lemma EncodedStep(s: Bytes, i: nat)
    requires i < |s|
    ensures Encoded(s[..i + 1]) == Encoded(s[..i]) + EncodeByte(s[i])
  {
    assert s[..i + 1][..i] == s[..i];
  }

  // ------------------------------------------------------------------
  // The decoder

  predicate CSpace(c: byte) {
    c == SPACE || 9 <= c <= 13
  }

  function HexValue(c: byte): Option<byte> {
    if Digit(c) then Some(c - 48)
    else if 65 <= c <= 70 then Some(c - 55)
    else if 97 <= c <= 102 then Some(c - 87)
    else None
  }

  // strtol(.., 16) on a two-byte string, when it consumes all that c_str() shows, as a
  // char: leading white space and a sign are accepted, and a NUL ends the text early.
  function StrtolHex(a: byte, b: byte): Option<byte> {
    if a == 0 then Some(0)
    else if HexValue(a).Some? then
      if b == 0 then HexValue(a)
      else if HexValue(b).Some? then Some(HexValue(a).value * 16 + HexValue(b).value)
      else None
    else if CSpace(a) || a == PLUS then HexValue(b)
    else if a == MINUS && HexValue(b).Some? then
      var v := HexValue(b).value;
      Some(if v == 0 then 0 else 255 - v + 1)
    else None
  }

  // One turn of the decoding loop on the rest of the payload: the byte it produces and
  // how much it consumes.
  function DecodeStep(p: Bytes): (r: (byte, nat))
    requires p != []
    ensures 1 <= r.1 <= |p|
  {
    if p[0] == PERCENT && |p| > 2 && StrtolHex(p[1], p[2]).Some? then (StrtolHex(p[1], p[2]).value, 3)
    else if p[0] == PLUS then (SPACE, 1)
    else (p[0], 1)
  }

  function Decoded(p: Bytes): Bytes {
    if p == [] then []
    else
      var (c, used) := DecodeStep(p);
      [c] + Decoded(p[used..])
  }

  const DATA_PREFIX: Bytes := [100, 97, 116, 97, 58, 116, 101, 120, 116, 47, 104, 116, 109, 108, 44]

  // decodeDataHtml
  method DecodeDataHtml(url: Bytes) returns (out: Bytes)
    ensures !(DATA_PREFIX <= url) ==> out == []
    ensures DATA_PREFIX <= url ==> out == Decoded(url[|DATA_PREFIX|..])
  {
    if !(DATA_PREFIX <= url) {
      return [];
    }
    var payload := url[|DATA_PREFIX|..];
    out := [];
    var i := 0;
    while i < |payload|
      invariant 0 <= i <= |payload|
      invariant out + Decoded(payload[i..]) == Decoded(payload)
    {
      ghost var rest := payload[i..];
      ghost var step := DecodeStep(rest);
      Regroup(out, [step.0], Decoded(rest[step.1..]));
      var escape := None;
      if payload[i] == PERCENT && i + 2 < |payload| {
        escape := StrtolHex(payload[i + 1], payload[i + 2]);
      }
      assert rest[step.1..] == payload[i + step.1..];
      if escape.Some? {
        out := out + [escape.value];
        i := i + 3;
      } else if payload[i] == PLUS {
        out := out + [SPACE];
        i := i + 1;
      } else {
        out := out + [payload[i]];
        i := i + 1;
      }
    }
  }

  // ------------------------------------------------------------------
  // The query of a submitted form

  datatype Field = Field(name: Bytes, value: Bytes)

  function FieldText(f: Field): Bytes {
    Encoded(f.name) + [EQUALS] + Encoded(f.value)
  }

  function FormQuery(fields: seq<Field>): Bytes {
    if fields == [] then []
    else
      var n := |fields| - 1;
      FormQuery(fields[..n]) + (if n > 0 then [AMPERSAND] else []) + FieldText(fields[n])
  }

  // The URL a GET submission navigates to, from the resolved action.
  function SubmitUrl(resolved: Bytes, fields: seq<Field>): Bytes {
    if fields == [] then resolved
    else resolved + [if QUESTION in resolved then AMPERSAND else QUESTION] + FormQuery(fields)
  }

  method BuildSubmitUrl(resolved: Bytes, fields: seq<Field>) returns (url: Bytes)
    ensures url == SubmitUrl(resolved, fields)
    ensures ParseQuery(QueryPart(url)) == ParseQuery(QueryPart(resolved)) + fields
    ensures Submits(resolved, fields, url)
  {
    var query := [];
    for i := 0 to |fields|
      invariant query == FormQuery(fields[..i])
      invariant i > 0 ==> query != []
    {
      assert fields[..i + 1][..i] == fields[..i];
      if i > 0 {
        query := query + [AMPERSAND];
      }
      var name := UrlEncode(fields[i].name);
      var value := UrlEncode(fields[i].value);
      assert FieldText(fields[i]) == name + [EQUALS] + value;
      query := query + (name + [EQUALS] + value);
    }
    assert fields[..|fields|] == fields;
    url := resolved;
    if query != [] {
      url := url + [if QUESTION in resolved then AMPERSAND else QUESTION];
      url := url + query;
    }
    SubmitRoundTrip(resolved, fields);
    SubmitText(resolved, fields);
  }

  // The action comes first, then ? or, if it has one, &, then the query.
  predicate Submits(resolved: Bytes, fields: seq<Field>, url: Bytes) {
    if fields == [] then url == resolved
    else
      && |url| > |resolved| && url[..|resolved|] == resolved
      && url[|resolved|] == (if 63 in resolved then 38 else 63)
      && url[|resolved| + 1..] == FormQuery(fields)
  }

  lemma SubmitText(resolved: Bytes, fields: seq<Field>)
    ensures Submits(resolved, fields, SubmitUrl(resolved, fields))
  {
  }

  // ------------------------------------------------------------------
  // Reading a query back: pieces between &, empty ones skipped, split at the first =

  function Cut(s: Bytes, at: byte): (r: nat)
    ensures r <= |s|
    ensures at !in s[..r]
    ensures r < |s| ==> s[r] == at
  {
    if s == [] || s[0] == at then 0
    else
      var r := 1 + Cut(s[1..], at);
      assert s[..r] == [s[0]] + s[1..][..r - 1];
      r
  }

  function ReadField(piece: Bytes): Field {
    var k := Cut(piece, EQUALS);
    Field(Decoded(piece[..k]), Decoded(if k < |piece| then piece[k + 1..] else []))
  }

  function Pieces(query: Bytes): seq<Bytes>
    decreases |query|
  {
    if query == [] then []
    else
      var k := Cut(query, AMPERSAND);
      (if k == 0 then [] else [query[..k]]) + if k < |query| then Pieces(query[k + 1..]) else []
  }

  function ReadFields(pieces: seq<Bytes>): seq<Field> {
    seq(|pieces|, i requires 0 <= i < |pieces| => ReadField(pieces[i]))
  }

  function ParseQuery(query: Bytes): seq<Field> {
    ReadFields(Pieces(query))
  }

  // Everything after the first ?
  function QueryPart(url: Bytes): Bytes {
    var k := Cut(url, QUESTION);
    if k < |url| then url[k + 1..] else []
  }

  // ------------------------------------------------------------------
  // Proofs

  // Main result 1. Encoding leaves exactly the unreserved bytes as they are.
  lemma UnreservedIsKept(c: byte)
    ensures EncodeByte(c) == [c] <==> Unreserved(c)
  {
  }

  lemma HexRoundTrip(c: byte)
    ensures StrtolHex(UpperHex(c / 16), UpperHex(c % 16)) == Some(c)
  {
    var a, b := c / 16, c % 16;
    assert HexValue(UpperHex(a)) == Some(a) && HexValue(UpperHex(b)) == Some(b);
    assert a * 16 + b == c;
  }

  lemma DecodeEncodedByte(c: byte, rest: Bytes)
    ensures Decoded(EncodeByte(c) + rest) == [c] + Decoded(rest)
  {
    var p := EncodeByte(c) + rest;
    if Unreserved(c) || c == SPACE {
      assert p[1..] == rest;
    } else {
      HexRoundTrip(c);
      assert p[1] == UpperHex(c / 16) && p[2] == UpperHex(c % 16) && p[3..] == rest;
    }
  }

  lemma {:induction false} DecodeEncodeThen(s: Bytes, rest: Bytes)
    ensures Decoded(Encoded(s) + rest) == s + Decoded(rest)
  {
    if s == [] {
      assert Encoded(s) + rest == rest;
    } else {
      var n := |s| - 1;
      var last := EncodeByte(s[n]);
      DecodeEncodeThen(s[..n], last + rest);
      DecodeEncodedByte(s[n], rest);
      Regroup(Encoded(s[..n]), last, rest);
      Regroup(s[..n], [s[n]], Decoded(rest));
      assert s == s[..n] + [s[n]];
    }
  }

  // Main result 2. The decoder undoes the encoder on every byte string.
  lemma DecodeEncode(s: Bytes)
    ensures Decoded(Encoded(s)) == s
  {
    DecodeEncodeThen(s, []);
    assert Encoded(s) + [] == Encoded(s);
  }

  lemma {:induction false} EncodedAlphabet(s: Bytes)
    ensures forall i :: 0 <= i < |Encoded(s)| ==>
      Unreserved(Encoded(s)[i]) || Encoded(s)[i] == PLUS || Encoded(s)[i] == PERCENT
  {
    if s != [] {
      EncodedAlphabet(s[..|s| - 1]);
    }
  }

  lemma NoSeparators(s: Bytes)
    ensures AMPERSAND !in Encoded(s) && EQUALS !in Encoded(s) && QUESTION !in Encoded(s)
  {
    EncodedAlphabet(s);
  }

  lemma {:induction false} CutAt(a: Bytes, at: byte, b: Bytes)
    requires at !in a
    ensures Cut(a + [at] + b, at) == |a|
    ensures Cut(a, at) == |a|
  {
    if a != [] {
      CutAt(a[1..], at, b);
      assert (a + [at] + b)[1..] == a[1..] + [at] + b;
    }
  }

  lemma {:induction false} CutFirst(a: Bytes, at: byte, b: Bytes)
    requires at in a
    ensures Cut(a + b, at) == Cut(a, at) < |a|
  {
    if a[0] != at {
      assert (a + b)[1..] == a[1..] + b;
      CutFirst(a[1..], at, b);
    }
  }

  // What Pieces does when the first & of `q` comes right after `head`.
  lemma PiecesAt(head: Bytes, rest: Bytes)
    requires AMPERSAND !in head
    ensures Pieces(head + [AMPERSAND] + rest) == (if head == [] then [] else [head]) + Pieces(rest)
  {
    var q := head + [AMPERSAND] + rest;
    CutAt(head, AMPERSAND, rest);
    assert q[..|head|] == head && q[|head| + 1..] == rest;
  }

  lemma PiecesAlone(head: Bytes)
    requires AMPERSAND !in head
    ensures Pieces(head) == if head == [] then [] else [head]
  {
    CutAt(head, AMPERSAND, []);
    assert head[..|head|] == head;
  }

  lemma {:induction false} PiecesJoined(a: Bytes, b: Bytes)
    ensures Pieces(a + [AMPERSAND] + b) == Pieces(a) + Pieces(b)
    decreases |a|
  {
    if AMPERSAND in a {
      var k := Cut(a, AMPERSAND);
      CutFirst(a, AMPERSAND, []);
      var head, rest := a[..k], a[k + 1..];
      assert a == head + [AMPERSAND] + rest;
      assert a + [AMPERSAND] + b == head + [AMPERSAND] + (rest + [AMPERSAND] + b);
      PiecesAt(head, rest);
      PiecesAt(head, rest + [AMPERSAND] + b);
      PiecesJoined(rest, b);
      Regroup(if head == [] then [] else [head], Pieces(rest), Pieces(b));
    } else {
      PiecesAt(a, b);
      PiecesAlone(a);
    }
  }

  lemma ReadFieldsConcat(a: seq<Bytes>, b: seq<Bytes>)
    ensures ReadFields(a + b) == ReadFields(a) + ReadFields(b)
  {
  }

  // Queries joined by & read back as the two lists joined.
  lemma ParseJoined(a: Bytes, b: Bytes)
    ensures ParseQuery(a + [AMPERSAND] + b) == ParseQuery(a) + ParseQuery(b)
  {
    PiecesJoined(a, b);
    ReadFieldsConcat(Pieces(a), Pieces(b));
  }

  lemma NotInEncoded(s: Bytes, c: byte)
    requires c in {AMPERSAND, EQUALS, QUESTION}
    ensures c !in Encoded(s)
  {
    EncodedAlphabet(s);
  }

  lemma ReadFieldText(f: Field)
    ensures ReadField(FieldText(f)) == f
  {
    var name, value := Encoded(f.name), Encoded(f.value);
    NotInEncoded(f.name, EQUALS);
    CutAt(name, EQUALS, value);
    DecodeEncode(f.name);
    DecodeEncode(f.value);
    assert (name + [EQUALS] + value)[..|name|] == name;
    assert (name + [EQUALS] + value)[|name| + 1..] == value;
  }

  lemma ParseOne(f: Field)
    ensures ParseQuery(FieldText(f)) == [f]
  {
    var text := FieldText(f);
    NotInEncoded(f.name, AMPERSAND);
    NotInEncoded(f.value, AMPERSAND);
    PiecesAlone(text);
    ReadFieldText(f);
    assert ReadFields([text]) == [ReadField(text)];
  }

  // Main result 3. The query built from any list of fields, with any bytes in names and
  // values, reads back as that list.
  lemma {:induction false} QueryRoundTrip(fields: seq<Field>)
    ensures ParseQuery(FormQuery(fields)) == fields
  {
    if fields != [] {
      var n := |fields| - 1;
      var init, last := fields[..n], fields[n];
      assert fields == init + [last];
      QueryRoundTrip(init);
      ParseOne(last);
      if n > 0 {
        ParseJoined(FormQuery(init), FieldText(last));
      } else {
        assert FormQuery(fields) == [] + [] + FieldText(last) == FieldText(last);
      }
    }
  }

  // Main result 4. The submitted URL carries the query the action already had, followed
  // by the form's fields, whether or not there was a ? before.
  lemma SubmitRoundTrip(resolved: Bytes, fields: seq<Field>)
    ensures ParseQuery(QueryPart(SubmitUrl(resolved, fields))) == ParseQuery(QueryPart(resolved)) + fields
  {
    var query := FormQuery(fields);
    QueryRoundTrip(fields);
    if fields != [] {
      if QUESTION in resolved {
        QueryPartExtended(resolved, query);
        ParseJoined(QueryPart(resolved), query);
      } else {
        CutAt(resolved, QUESTION, query);
        assert (resolved + [QUESTION] + query)[|resolved| + 1..] == query;
      }
    }
  }

  lemma QueryPartExtended(resolved: Bytes, query: Bytes)
    requires QUESTION in resolved
    ensures QueryPart(resolved + [AMPERSAND] + query) == QueryPart(resolved) + [AMPERSAND] + query
  {
    var tail := [AMPERSAND] + query;
    CutFirst(resolved, QUESTION, tail);
    assert resolved + [AMPERSAND] + query == resolved + tail;
    var k := Cut(resolved, QUESTION);
    assert (resolved + tail)[k + 1..] == resolved[k + 1..] + [AMPERSAND] + query;
  }

  // ------------------------------------------------------------------
  // The texts themselves

  // Letters, digits and four marks stay, a blank becomes a plus sign, and any other byte
  // a percent sign and two upper-case hexadecimal digits.
  lemma ByteText(c: byte)
    ensures
      var digits := "0123456789ABCDEF";
      var kept := 48 <= c <= 57 || 65 <= c <= 90 || 97 <= c <= 122 || c == 45 || c == 46 || c == 95 || c == 126;
      EncodeByte(c) ==
        if kept then [c]
        else if c == 32 then [43]
        else [37, digits[c / 16] as int as byte, digits[c % 16] as int as byte]
  {
    DigitText(c / 16);
    DigitText(c % 16);
  }

  lemma DigitText(n: byte)
    requires n < 16
    ensures "0123456789ABCDEF"[n] as int == UpperHex(n) as int
  {
    var digits := "0123456789ABCDEF";
    assert n < 10 ==> digits[n] == "0123456789"[n];
    assert n == 0 || n == 1 || n == 2 || n == 3 || n == 4 || n == 5 || n == 6 || n == 7 || n >= 8;
  }

  // Bytes are encoded one by one.
  lemma {:induction false} EncodedConcat(a: Bytes, b: Bytes)
    ensures Encoded(a + b) == Encoded(a) + Encoded(b)
  {
    if b == [] {
      assert a + b == a;
    } else {
      var init, last := b[..|b| - 1], b[|b| - 1];
      EncodedConcat(a, init);
      OneMoreByte(a, init, last);
      assert b == init + [last];
    }
  }

  lemma OneMoreByte(a: Bytes, b: Bytes, c: byte)
    requires Encoded(a + b) == Encoded(a) + Encoded(b)
    ensures Encoded(a + (b + [c])) == Encoded(a) + Encoded(b + [c])
  {
    EncodedSnoc(a + b, c);
    EncodedSnoc(b, c);
    Regroup(a, b, [c]);
    Regroup(Encoded(a), Encoded(b), EncodeByte(c));
  }

  lemma EncodedSnoc(s: Bytes, c: byte)
    ensures Encoded(s + [c]) == Encoded(s) + EncodeByte(c)
  {
    assert (s + [c])[..|s|] == s;
  }

  lemma EncodedOne(c: byte)
    ensures Encoded([c]) == EncodeByte(c)
  {
    assert [c][..0] == [];
  }

  // A query is its fields, name = value, joined by &.
  lemma QueryOfOne(f: Field)
    ensures FormQuery([f]) == Encoded(f.name) + [61] + Encoded(f.value)
  {
    assert [f][..0] == [];
  }

  lemma {:induction false} QueryOfMore(a: seq<Field>, b: seq<Field>)
    requires a != [] && b != []
    ensures FormQuery(a + b) == FormQuery(a) + [38] + FormQuery(b)
  {
    var init, last := b[..|b| - 1], b[|b| - 1];
    assert b == init + [last];
    if init == [] {
      assert b == [last];
      QuerySnoc(a, last);
      QueryOfOne(last);
    } else {
      QueryOfMore(a, init);
      assert a + b == (a + init) + [last];
      QuerySnoc(a + init, last);
      QuerySnoc(init, last);
      JoinMore(FormQuery(a), FormQuery(init), FieldText(last));
    }
  }

  lemma QuerySnoc(fields: seq<Field>, last: Field)
    requires fields != []
    ensures FormQuery(fields + [last]) == FormQuery(fields) + [38] + FieldText(last)
  {
    assert (fields + [last])[..|fields|] == fields;
  }

  lemma JoinMore(a: Bytes, b: Bytes, c: Bytes)
    ensures (a + [38] + b) + [38] + c == a + [38] + (b + [38] + c)
  {
  }

  // ------------------------------------------------------------------
  // strtol with base 16, on any text of a C string

  predicate SpaceChar(c: byte) {
    c == 32 || 9 <= c <= 13
  }

  ghost predicate HexDigit(c: byte, v: int) {
    0 <= v < 16 && (c as int == "0123456789abcdef"[v] as int || c as int == "0123456789ABCDEF"[v] as int)
  }

  function AfterSpaces(text: Bytes): Bytes {
    if text != [] && SpaceChar(text[0]) then AfterSpaces(text[1..]) else text
  }

  // The value of digits that are all hexadecimal.
  ghost predicate HexNumber(digits: Bytes, v: int)
    decreases |digits|, 0
  {
    if digits == [] then v == 0 else HexEnd(digits[..|digits| - 1], digits[|digits| - 1], v)
  }

  ghost predicate HexEnd(digits: Bytes, c: byte, v: int)
    decreases |digits|, 1
  {
    exists d :: HexDigit(c, d) && (v - d) % 16 == 0 && HexNumber(digits, (v - d) / 16)
  }

  // The whole text is a number, with a sign or without; the empty text counts as 0.
  ghost predicate Strtol(text: Bytes, v: int) {
    var t := AfterSpaces(text);
    || (text == [] && v == 0)
    || (t != [] && HexNumber(t, v))
    || (|t| > 1 && t[0] == 43 && HexNumber(t[1..], v))
    || (|t| > 1 && t[0] == 45 && HexNumber(t[1..], -v))
  }

  // What a C string of two bytes shows.
  function CText(a: byte, b: byte): Bytes {
    if a == 0 then [] else if b == 0 then [a] else [a, b]
  }

  // Main result 5. The two bytes after a percent sign decode to a byte exactly when strtol
  // reads all that is shown of them, and to the number it reads, as a char.
  lemma EscapeMeaning(a: byte, b: byte)
    ensures StrtolHex(a, b).None? <==> forall v :: !Strtol(CText(a, b), v)
    ensures forall v :: Strtol(CText(a, b), v) ==> StrtolHex(a, b).Some? && StrtolHex(a, b).value as int == v % 256
  {
    forall v: int
      ensures Strtol(CText(a, b), v) <==> Number(a, b) == Some(v)
    {
      NumberMeaning(a, b, v);
    }
    NumberAsChar(a, b);
    if Number(a, b).Some? {
      assert Strtol(CText(a, b), Number(a, b).value);
    }
  }

  // The number before it becomes a char.
  ghost function Number(a: byte, b: byte): Option<int> {
    if a == 0 then Some(0)
    else if HexValue(a).Some? then
      if b == 0 then Some(HexValue(a).value as int)
      else if HexValue(b).Some? then Some(HexValue(a).value as int * 16 + HexValue(b).value as int)
      else None
    else if (SpaceChar(a) || a == 43) && HexValue(b).Some? then Some(HexValue(b).value as int)
    else if a == 45 && HexValue(b).Some? then Some(-(HexValue(b).value as int))
    else None
  }

  lemma NumberAsChar(a: byte, b: byte)
    ensures StrtolHex(a, b).Some? <==> Number(a, b).Some?
    ensures Number(a, b).Some? ==> StrtolHex(a, b).value as int == Number(a, b).value % 256
  {
  }

  lemma DigitMeaning(c: byte, v: int)
    ensures HexDigit(c, v) <==> HexValue(c).Some? && HexValue(c).value as int == v
  {
    if 0 <= v < 16 {
      LowerDigit(v);
      UpperDigit(v);
    }
  }

  lemma LowerDigit(v: nat)
    requires v < 16
    ensures "0123456789abcdef"[v] as int == if v < 10 then 48 + v else 87 + v
  {
    assert v == 0 || v == 1 || v == 2 || v == 3 || v == 4 || v == 5 || v == 6 || v == 7 || v >= 8;
  }

  lemma UpperDigit(v: nat)
    requires v < 16
    ensures "0123456789ABCDEF"[v] as int == if v < 10 then 48 + v else 55 + v
  {
    assert v == 0 || v == 1 || v == 2 || v == 3 || v == 4 || v == 5 || v == 6 || v == 7 || v >= 8;
  }

  lemma OneDigit(c: byte, v: int)
    ensures HexNumber([c], v) <==> HexValue(c).Some? && HexValue(c).value as int == v
  {
    var digits := [c];
    assert digits[..0] == [];
    DigitMeaning(c, v);
    if HexNumber(digits, v) {
      assert HexEnd([], c, v);
      var x :| HexDigit(c, x) && (v - x) % 16 == 0 && HexNumber([], (v - x) / 16);
      assert v == x;
    }
    if HexDigit(c, v) {
      assert HexNumber([], (v - v) / 16);
      assert HexEnd([], c, v);
    }
  }

  lemma TwoDigits(c: byte, d: byte, v: int)
    ensures HexNumber([c, d], v) <==>
      HexValue(c).Some? && HexValue(d).Some? && v == HexValue(c).value as int * 16 + HexValue(d).value as int
  {
    var digits := [c, d];
    assert digits[..1] == [c];
    if HexNumber(digits, v) {
      assert HexEnd([c], d, v);
      var x :| HexDigit(d, x) && (v - x) % 16 == 0 && HexNumber([c], (v - x) / 16);
      OneDigit(c, (v - x) / 16);
      DigitMeaning(d, x);
    }
    if HexValue(c).Some? && HexValue(d).Some? {
      SecondDigit(c, d, HexValue(c).value as int, HexValue(d).value as int);
    }
  }

  lemma SecondDigit(c: byte, d: byte, u: int, x: int)
    requires HexValue(c).Some? && u == HexValue(c).value as int
    requires HexValue(d).Some? && x == HexValue(d).value as int
    ensures HexEnd([c], d, u * 16 + x)
  {
    OneDigit(c, u);
    DigitMeaning(d, x);
    assert (u * 16 + x - x) / 16 == u && (u * 16 + x - x) % 16 == 0;
  }

  lemma SpacesOfTwo(a: byte, b: byte)
    ensures AfterSpaces([a]) == if SpaceChar(a) then [] else [a]
    ensures AfterSpaces([a, b]) ==
      if !SpaceChar(a) then [a, b] else if SpaceChar(b) then [] else [b]
  {
    assert [a][1..] == [] && [a, b][1..] == [b] && [b][1..] == [];
  }

  lemma NumberMeaning(a: byte, b: byte, v: int)
    ensures Strtol(CText(a, b), v) <==> Number(a, b) == Some(v)
  {
    SpacesOfTwo(a, b);
    OneDigit(a, v);
    OneDigit(b, v);
    OneDigit(b, -v);
    TwoDigits(a, b, v);
    assert [a, b][1..] == [b];
  }

  // One turn of the decoder: an escape that strtol reads, a plus sign, or a byte as it is.
  lemma DecodedMeaning(p: Bytes)
    requires p != []
    ensures
      var escape := if p[0] == 37 && |p| >= 3 then StrtolHex(p[1], p[2]) else None;
      Decoded(p) ==
        if escape.Some? then [escape.value] + Decoded(p[3..])
        else if p[0] == 43 then [32] + Decoded(p[1..])
        else [p[0]] + Decoded(p[1..])
  {
  }

  // Pages after the text "data:text/html,".
  lemma PrefixText()
    ensures |DATA_PREFIX| == 15
    ensures forall i :: 0 <= i < 15 ==> DATA_PREFIX[i] as int == "data:text/html,"[i] as int
  {
    var text := "data:text/html,";
    forall i | 0 <= i < 15
      ensures DATA_PREFIX[i] as int == text[i] as int
    {
      assert i == 0 || i == 1 || i == 2 || i == 3 || i == 4 || i == 5 || i == 6 || i == 7 || i >= 8;
    }
  }
}
