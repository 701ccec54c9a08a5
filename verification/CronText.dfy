// Every usable schedule can be written as an expression that the parser reads back.
module CronText {
  import opened CronExpr
  import Decimal

  predicate NoSpace(s: string) {
    forall i :: 0 <= i < |s| ==> !IsSpace(s[i])
  }

  // ------------------------------------------------------------------
  // Splitting undoes joining

  lemma {:induction false} CommaAfter(token: string, rest: string)
    requires ',' !in token
    ensures Comma(token + "," + rest) == |token|
    ensures Comma(token) == |token|
  {
    if token != "" {
      assert (token + "," + rest)[1..] == token[1..] + "," + rest;
      CommaAfter(token[1..], rest);
    }
  }

  lemma TokensCons(token: string, rest: string)
    requires token != "" && ',' !in token
    ensures Tokens(token + "," + rest) == [token] + Tokens(rest)
    ensures Tokens(token) == [token]
  {
    var s := token + "," + rest;
    CommaAfter(token, rest);
    assert s[..|token|] == token && s[|token| + 1..] == rest;
    assert token[..|token|] == token;
  }

  lemma {:induction false} WordEndAt(word: string, rest: string)
    requires NoSpace(word)
    ensures WordEnd(word + " " + rest) == |word|
    ensures WordEnd(word) == |word|
  {
    if word != "" {
      assert (word + " " + rest)[1..] == word[1..] + " " + rest;
      WordEndAt(word[1..], rest);
    }
  }

  lemma WordsCons(word: string, rest: string)
    requires word != "" && NoSpace(word)
    ensures Words(word + " " + rest) == [word] + Words(rest)
    ensures Words(word) == [word]
  {
    var s := word + " " + rest;
    WordEndAt(word, rest);
    assert s[..|word|] == word && s[|word|..] == " " + rest && (" " + rest)[1..] == rest;
    assert word[..|word|] == word && word[|word|..] == "";
  }

  // ------------------------------------------------------------------
  // Fields

  lemma {:induction false} NumeralText(n: nat)
    ensures Numeral(Decimal.ToDecimal(n)) && Decimal.FromDecimal(Decimal.ToDecimal(n)) == n
    ensures ',' !in Decimal.ToDecimal(n) && NoSpace(Decimal.ToDecimal(n)) && '*' !in Decimal.ToDecimal(n)
  {
    Decimal.DecimalRoundTrip(n);
  }

  // The values the tokens stand for.
  ghost function ValuesOf(tokens: seq<string>): set<int> {
    set t | t in tokens && Numeral(t) :: Decimal.FromDecimal(t)
  }

  lemma ValuesCons(token: string, tokens: seq<string>)
    requires Numeral(token)
    ensures ValuesOf([token] + tokens) == {Decimal.FromDecimal(token)} + ValuesOf(tokens)
  {
    forall v: int
      ensures v in ValuesOf([token] + tokens) <==> v in {Decimal.FromDecimal(token)} + ValuesOf(tokens)
    {
      if v == Decimal.FromDecimal(token) {
        assert token in [token] + tokens;
      }
      if v in ValuesOf(tokens) {
        var t :| t in tokens && Numeral(t) && Decimal.FromDecimal(t) == v;
        assert t in [token] + tokens;
      }
    }
  }

  ghost predicate NonEmpty(values: set<int>) {
    exists v :: v in values
  }

  lemma OnlyOne(values: set<int>, v: int)
    requires v in values && !NonEmpty(values - {v})
    ensures values == {v}
  {
    forall u | u in values
      ensures u == v
    {
      assert u in values - {v} <==> u != v;
    }
  }

  // `field` spells exactly `values`, within the range.
  ghost predicate Spells(field: string, values: set<int>, min: int, max: int) {
    && field != "" && field != "*" && NoSpace(field)
    && Tokens(field) != [] && (forall t :: t in Tokens(field) ==> InRange(t, min, max))
    && ValuesOf(Tokens(field)) == values
  }

  lemma SpellOne(v: int, min: int, max: int)
    requires 0 <= min <= v <= max
    ensures Spells(Decimal.ToDecimal(v), {v}, min, max)
  {
    var token := Decimal.ToDecimal(v);
    NumeralText(v);
    TokensCons(token, "");
    ValuesCons(token, []);
    assert [token] + [] == [token] && ValuesOf([]) == {};
    assert token[0] != '*';
  }

  lemma SpellMore(v: int, tail: string, rest: set<int>, min: int, max: int)
    requires 0 <= min <= v <= max && Spells(tail, rest, min, max)
    ensures Spells(Decimal.ToDecimal(v) + "," + tail, {v} + rest, min, max)
  {
    var token := Decimal.ToDecimal(v);
    NumeralText(v);
    TokensCons(token, tail);
    ValuesCons(token, Tokens(tail));
    Glued(token, tail);
  }

  lemma Glued(a: string, b: string)
    requires NoSpace(a) && NoSpace(b)
    ensures NoSpace(a + "," + b) && ',' in a + "," + b
  {
    assert (a + "," + b)[|a|] == ',';
  }

  // A comma-separated list of the values of any set in range.
  lemma {:induction false} WriteField(values: set<int>, min: int, max: int) returns (field: string)
    requires 0 <= min && Within(values, min, max) && NonEmpty(values)
    ensures Spells(field, values, min, max)
    decreases values
  {
    var v :| v in values;
    var rest := values - {v};
    if NonEmpty(rest) {
      var tail := WriteField(rest, min, max);
      field := Decimal.ToDecimal(v) + "," + tail;
      SpellMore(v, tail, rest, min, max);
      assert values == {v} + rest;
    } else {
      field := Decimal.ToDecimal(v);
      SpellOne(v, min, max);
      OnlyOne(values, v);
    }
  }

  lemma FieldReadsBack(values: set<int>, min: int, max: int, field: string)
    requires max <= INT_MAX && Spells(field, values, min, max)
    ensures ReadField(field, min, max) == Accepted(values)
  {
    FieldMeaning(field, min, max);
  }

  // Main result 1. The schedules the parser can deliver are exactly the usable ones: for
  // each of them there is an expression that parses to it.
  lemma EveryScheduleCanBeWritten(s: Schedule) returns (expr: string)
    requires Usable(s)
    ensures ReadExpr(expr) == Parsed(s)
  {
    assert NonEmpty(s.minutes) && NonEmpty(s.hours) && NonEmpty(s.weekdays);
    var m := WriteField(s.minutes, 0, 59);
    var h := WriteField(s.hours, 0, 23);
    var w := WriteField(s.weekdays, 0, 6);
    FieldReadsBack(s.minutes, 0, 59, m);
    FieldReadsBack(s.hours, 0, 23, h);
    FieldReadsBack(s.weekdays, 0, 6, w);
    expr := m + " " + (h + " " + w);
    WordsCons(m, h + " " + w);
    WordsCons(h, w);
    WordsCons(w, "");
    assert Words(expr) == [m, h, w];
  }

  // ------------------------------------------------------------------
  // What splitting gives, on the text

  predicate Blank(c: char) {
    c == ' ' || c == '\t' || c == '\n' || c == '\r' || c as int == 11 || c as int == 12
  }

  predicate Blanks(s: string) {
    forall i :: 0 <= i < |s| ==> Blank(s[i])
  }

  predicate Solid(s: string) {
    s != "" && forall i :: 0 <= i < |s| ==> !Blank(s[i])
  }

  // The words with the gaps before, between and after them.
  ghost function Laid(gaps: seq<string>, words: seq<string>): string
    requires |gaps| == |words| + 1
  {
    if words == [] then gaps[0] else gaps[0] + words[0] + Laid(gaps[1..], words[1..])
  }

  ghost predicate SplitAtBlanks(s: string, words: seq<string>, gaps: seq<string>) {
    && |gaps| == |words| + 1 && s == Laid(gaps, words)
    && (forall i :: 0 <= i < |words| ==> Solid(words[i]))
    && (forall i :: 0 <= i < |gaps| ==> Blanks(gaps[i]))
    && (forall i :: 0 < i < |words| ==> gaps[i] != "")
  }

  // Main result 2. The words of a text are its longest stretches without blanks, in order.
  lemma {:induction false} WordsMeaning(s: string) returns (gaps: seq<string>)
    ensures SplitAtBlanks(s, Words(s), gaps)
    ensures s != "" && !Blank(s[0]) ==> gaps[0] == ""
    decreases |s|
  {
    if s == "" {
      gaps := [""];
    } else if IsSpace(s[0]) {
      var rest := WordsMeaning(s[1..]);
      gaps := OneMoreBlank(s[0], s[1..], Words(s[1..]), rest);
      assert [s[0]] + s[1..] == s;
    } else {
      var k := WordEnd(s);
      WordEndMeaning(s);
      var rest := WordsMeaning(s[k..]);
      gaps := OneMoreWord(s[..k], s[k..], Words(s[k..]), rest);
      assert s[..k] + s[k..] == s;
    }
  }

  lemma {:induction false} WordEndMeaning(s: string)
    ensures forall i :: 0 <= i < WordEnd(s) ==> !Blank(s[i])
    ensures WordEnd(s) < |s| ==> Blank(s[WordEnd(s)])
  {
    if s != "" && !IsSpace(s[0]) {
      WordEndMeaning(s[1..]);
    }
  }

  lemma OneMoreBlank(c: char, s: string, words: seq<string>, rest: seq<string>) returns (gaps: seq<string>)
    requires Blank(c) && SplitAtBlanks(s, words, rest)
    ensures SplitAtBlanks([c] + s, words, gaps)
  {
    gaps := [[c] + rest[0]] + rest[1..];
    assert gaps[1..] == rest[1..];
    if words != [] {
      assert [c] + (rest[0] + words[0] + Laid(rest[1..], words[1..])) ==
        ([c] + rest[0]) + words[0] + Laid(gaps[1..], words[1..]);
    }
  }

  lemma OneMoreWord(word: string, s: string, words: seq<string>, rest: seq<string>) returns (gaps: seq<string>)
    requires Solid(word) && SplitAtBlanks(s, words, rest)
    requires words != [] ==> rest[0] != ""
    ensures SplitAtBlanks(word + s, [word] + words, gaps) && gaps[0] == ""
  {
    gaps := [""] + rest;
    var all := [word] + words;
    assert gaps[1..] == rest && all[1..] == words;
    assert "" + word + Laid(rest, words) == word + s;
    forall i | 0 < i < |all|
      ensures gaps[i] != ""
    {
      assert gaps[i] == rest[i - 1];
    }
  }

  ghost function Joined(tokens: seq<string>): string
    requires tokens != []
  {
    if |tokens| == 1 then tokens[0] else tokens[0] + "," + Joined(tokens[1..])
  }

  // What stands between the commas; a comma at the very end only ends the last token.
  ghost predicate SplitAtCommas(s: string, tokens: seq<string>) {
    && (tokens == [] <==> s == "")
    && (forall i :: 0 <= i < |tokens| ==> ',' !in tokens[i])
    && (s != "" ==> s == Joined(tokens) + if s[|s| - 1] == ',' then "," else "")
  }

  // Main result 3. The tokens of a field are what stands between its commas.
  lemma {:induction false} TokensSplit(s: string)
    ensures SplitAtCommas(s, Tokens(s))
    decreases |s|
  {
    if s != "" {
      var k := Comma(s);
      FirstComma(s);
      if k < |s| - 1 {
        TokensSplit(s[k + 1..]);
        OneMoreToken(s[..k], s[k + 1..], Tokens(s[k + 1..]));
        TokensAt(s, k);
      } else {
        LastToken(s, k);
      }
    }
  }

  lemma OneMoreToken(token: string, rest: string, tokens: seq<string>)
    requires ',' !in token && rest != "" && SplitAtCommas(rest, tokens)
    ensures SplitAtCommas(token + "," + rest, [token] + tokens)
  {
    var s, all := token + "," + rest, [token] + tokens;
    assert all[1..] == tokens && Joined(all) == token + "," + Joined(tokens);
    assert s[|s| - 1] == rest[|rest| - 1];
  }

  lemma TokensAt(s: string, k: nat)
    requires k == Comma(s) && k + 1 < |s|
    ensures s == s[..k] + "," + s[k + 1..] && Tokens(s) == [s[..k]] + Tokens(s[k + 1..])
  {
    CutAtComma(s, k);
    OneToken(s, s[k + 1..]);
  }

  lemma CutAtComma(s: string, k: nat)
    requires k < |s| && s[k] == ','
    ensures s == s[..k] + "," + s[k + 1..]
  {
  }

  lemma OneToken(s: string, tail: string)
    requires s != "" && (if Comma(s) < |s| then tail == s[Comma(s) + 1..] else tail == "")
    ensures Tokens(s) == [s[..Comma(s)]] + Tokens(tail)
  {
  }

  lemma LastToken(s: string, k: nat)
    requires s != "" && k == Comma(s) && |s| - 1 <= k <= |s|
    requires ',' !in s[..k] && (k == |s| ==> ',' !in s && s[..k] == s)
    ensures SplitAtCommas(s, Tokens(s))
  {
    OneToken(s, "");
    LastIsSplit(s, k, s[..k]);
    assert [s[..k]] + Tokens("") == [s[..k]];
  }

  lemma LastIsSplit(s: string, k: nat, token: string)
    requires s != "" && |s| - 1 <= k <= |s| && token == s[..k] && ',' !in token
    requires k < |s| ==> s[k] == ','
    ensures SplitAtCommas(s, [token])
  {
    if k < |s| {
      assert s == token + ",";
    } else {
      assert s == token;
      assert token[|token| - 1] in token;
    }
  }

  lemma {:induction false} FirstComma(s: string)
    ensures ',' !in s[..Comma(s)]
    ensures Comma(s) == |s| ==> ',' !in s && s[..Comma(s)] == s
  {
    if s != "" && s[0] != ',' {
      FirstComma(s[1..]);
      assert s[..Comma(s)] == [s[0]] + s[1..][..Comma(s[1..])];
      assert s == [s[0]] + s[1..];
    }
  }
}
