// The cron expression parser: three fields, minute hour dayOfWeek.
module CronExpr {
  import Decimal

  // The values each field allows; the code keeps them in sorted vectors and only ever
  // asks whether a value occurs.
  datatype Schedule = Schedule(minutes: set<int>, hours: set<int>, weekdays: set<int>)

  // std::stoi throws on a number that does not fit in an int.
  datatype FieldResult = Accepted(values: set<int>) | Rejected | Overflow

  datatype ExprError = TooFewFields | TooManyFields | BadMinute | BadHour | BadDayOfWeek

  datatype ExprResult = Parsed(schedule: Schedule) | Invalid(error: ExprError) | Threw

  const INT_MAX := 0x7FFF_FFFF

  predicate IsSpace(c: char) {
    c == ' ' || '\t' <= c <= '\r'
  }

  // ------------------------------------------------------------------
  // Splitting: what operator>> and getline(',') deliver

  function WordEnd(s: string): (r: nat)
    ensures r <= |s|
    ensures s != "" && !IsSpace(s[0]) ==> r > 0
  {
    if s == "" || IsSpace(s[0]) then 0 else 1 + WordEnd(s[1..])
  }

  function Words(s: string): seq<string>
    decreases |s|
  {
    if s == "" then []
    else if IsSpace(s[0]) then Words(s[1..])
    else [s[..WordEnd(s)]] + Words(s[WordEnd(s)..])
  }

  function Comma(s: string): (r: nat)
    ensures r <= |s|
    ensures r < |s| ==> s[r] == ','
  {
    if s == "" || s[0] == ',' then 0 else 1 + Comma(s[1..])
  }

  // Tokens between commas; a comma at the very end starts no further token.
  function Tokens(s: string): seq<string>
    decreases |s|
  {
    if s == "" then []
    else [s[..Comma(s)]] + if Comma(s) < |s| then Tokens(s[Comma(s) + 1..]) else []
  }

  // ------------------------------------------------------------------
  // Fields

  predicate Numeral(token: string) {
    token != "" && Decimal.AllDigits(token)
  }

  lemma NumeralMeaning(token: string)
    ensures Numeral(token) <==> |token| > 0 && forall i :: 0 <= i < |token| ==> '0' <= token[i] <= '9'
  {
  }

  predicate InRange(token: string, min: int, max: int) {
    Numeral(token) && min <= Decimal.FromDecimal(token) <= max
  }

  function Interval(min: int, max: int): (r: set<int>)
    ensures forall v :: v in r <==> min <= v <= max
    decreases max - min
  {
    if min > max then {} else Interval(min, max - 1) + {max}
  }

  // The tokens are read in order; the first bad one decides.
  function ReadTokens(tokens: seq<string>, min: int, max: int, values: set<int>): FieldResult {
    if tokens == [] then (if values == {} then Rejected else Accepted(values))
    else if !Numeral(tokens[0]) then Rejected
    else if Decimal.FromDecimal(tokens[0]) > INT_MAX then Overflow
    else if !InRange(tokens[0], min, max) then Rejected
    else ReadTokens(tokens[1..], min, max, values + {Decimal.FromDecimal(tokens[0])})
  }

  function ReadField(field: string, min: int, max: int): FieldResult {
    if field == "*" then (if min <= max then Accepted(Interval(min, max)) else Rejected)
    else ReadTokens(Tokens(field), min, max, {})
  }

  method ParseCronField(field: string, min: int, max: int) returns (result: FieldResult)
    requires max <= INT_MAX
    ensures result == ReadField(field, min, max)
    ensures result.Accepted? <==> FieldOk(field, min, max)
    ensures result.Accepted? ==> result.values == FieldValues(field, min, max)
  {
    var uniq: set<int> := {};
    FieldMeaning(field, min, max);
    if field == "*" {
      var i := min;
      while i <= max
        invariant min <= i && (i == min || i <= max + 1)
        invariant uniq == Interval(min, i - 1)
      {
        uniq := uniq + {i};
        i := i + 1;
      }
      assert uniq == Interval(min, max);
      assert min <= max ==> min in uniq;
    } else {
      var rest := field;
      while rest != ""
        invariant ReadField(field, min, max) == ReadTokens(Tokens(rest), min, max, uniq)
        decreases |rest|
      {
        var k := Comma(rest);
        var token := rest[..k];
        assert Tokens(rest)[0] == token && Tokens(rest)[1..] == if k < |rest| then Tokens(rest[k + 1..]) else [];
        rest := if k < |rest| then rest[k + 1..] else "";
        if token == "" {
          return Rejected;
        }
        if !Decimal.AllDigits(token) {
          return Rejected;
        }
        var v := Decimal.FromDecimal(token);
        if v > INT_MAX {
          return Overflow;
        }
        if v < min || v > max {
          return Rejected;
        }
        uniq := uniq + {v};
      }
    }
    return if uniq == {} then Rejected else Accepted(uniq);
  }

  // What the documentation of a field promises: a star, or numbers in range.
  ghost predicate FieldOk(field: string, min: int, max: int) {
    if field == "*" then min <= max
    else Tokens(field) != [] && forall t :: t in Tokens(field) ==> InRange(t, min, max)
  }

  ghost function FieldValues(field: string, min: int, max: int): set<int> {
    if field == "*" then Interval(min, max)
    else set t | t in Tokens(field) && Numeral(t) :: Decimal.FromDecimal(t)
  }

  // Main result 1. A field is accepted exactly when it is a star or a non-empty list of
  // numerals in range, and it then means exactly those numbers.
  lemma FieldMeaning(field: string, min: int, max: int)
    requires max <= INT_MAX
    ensures ReadField(field, min, max).Accepted? <==> FieldOk(field, min, max)
    ensures ReadField(field, min, max).Accepted? ==> ReadField(field, min, max).values == FieldValues(field, min, max)
  {
    if field != "*" {
      TokensMeaning(Tokens(field), min, max, {});
    }
  }

  lemma {:induction false} TokensMeaning(tokens: seq<string>, min: int, max: int, values: set<int>)
    requires max <= INT_MAX
    ensures
      var r := ReadTokens(tokens, min, max, values);
      && (r.Accepted? <==> (tokens != [] || values != {}) && forall t :: t in tokens ==> InRange(t, min, max))
      && (r.Accepted? ==> r.values == values + set t | t in tokens && Numeral(t) :: Decimal.FromDecimal(t))
  {
    if tokens != [] && InRange(tokens[0], min, max) {
      var v := Decimal.FromDecimal(tokens[0]);
      TokensMeaning(tokens[1..], min, max, values + {v});
      assert tokens == [tokens[0]] + tokens[1..];
      var all := set t | t in tokens && Numeral(t) :: Decimal.FromDecimal(t);
      var tail := set t | t in tokens[1..] && Numeral(t) :: Decimal.FromDecimal(t);
      assert all == {v} + tail;
    }
  }

  // ------------------------------------------------------------------
  // Expressions

  function ReadExpr(expr: string): ExprResult {
    var words := Words(expr);
    if |words| < 3 then Invalid(TooFewFields)
    else if |words| > 3 then Invalid(TooManyFields)
    else
      match ReadField(words[0], 0, 59)
      case Overflow => Threw
      case Rejected => Invalid(BadMinute)
      case Accepted(minutes) =>
        match ReadField(words[1], 0, 23)
        case Overflow => Threw
        case Rejected => Invalid(BadHour)
        case Accepted(hours) =>
          match ReadField(words[2], 0, 6)
          case Overflow => Threw
          case Rejected => Invalid(BadDayOfWeek)
          case Accepted(weekdays) => Parsed(Schedule(minutes, hours, weekdays))
  }

  // Three fields, each with a meaning of its own.
  ghost predicate ExprOk(words: seq<string>) {
    |words| == 3 && FieldOk(words[0], 0, 59) && FieldOk(words[1], 0, 23) && FieldOk(words[2], 0, 6)
  }

  ghost function ExprValues(words: seq<string>): Schedule
    requires |words| == 3
  {
    Schedule(FieldValues(words[0], 0, 59), FieldValues(words[1], 0, 23), FieldValues(words[2], 0, 6))
  }

  lemma ExprMeaning(expr: string)
    ensures ReadExpr(expr).Parsed? <==> ExprOk(Words(expr))
    ensures ReadExpr(expr).Parsed? ==> ReadExpr(expr).schedule == ExprValues(Words(expr))
  {
    var words := Words(expr);
    if |words| == 3 {
      FieldMeaning(words[0], 0, 59);
      FieldMeaning(words[1], 0, 23);
      FieldMeaning(words[2], 0, 6);
    }
  }

  // A numeral too long for an int, before any other fault.
  ghost predicate Overflows(field: string, min: int, max: int) {
    field != "*" && exists i :: TooLongAt(Tokens(field), min, max, i)
  }

  ghost predicate TooLongAt(tokens: seq<string>, min: int, max: int, i: int) {
    && 0 <= i < |tokens| && Numeral(tokens[i]) && Decimal.FromDecimal(tokens[i]) > 2147483647
    && forall k :: 0 <= k < i ==> InRange(tokens[k], min, max)
  }

  lemma FieldOverflow(field: string, min: int, max: int)
    requires max <= 2147483647
    ensures ReadField(field, min, max).Overflow? <==> Overflows(field, min, max)
  {
    if field != "*" {
      TokensOverflow(Tokens(field), min, max, {});
    }
  }

  lemma {:induction false} TokensOverflow(tokens: seq<string>, min: int, max: int, values: set<int>)
    requires max <= 2147483647
    ensures ReadTokens(tokens, min, max, values).Overflow? <==> exists i :: TooLongAt(tokens, min, max, i)
  {
    if tokens != [] {
      if InRange(tokens[0], min, max) {
        var rest := tokens[1..];
        TokensOverflow(rest, min, max, values + {Decimal.FromDecimal(tokens[0])});
        if i :| TooLongAt(rest, min, max, i) {
          assert TooLongAt(tokens, min, max, i + 1);
        }
        if i :| TooLongAt(tokens, min, max, i) {
          assert TooLongAt(rest, min, max, i - 1);
        }
      } else if Numeral(tokens[0]) && Decimal.FromDecimal(tokens[0]) > 2147483647 {
        assert TooLongAt(tokens, min, max, 0);
      }
    }
  }

  // Main result 3. Every refusal names the first fault, field by field; a number too long
  // for an int throws where any other fault would be named.
  lemma FaultMeaning(expr: string)
    ensures var w, r := Words(expr), ReadExpr(expr);
      && (r == Invalid(TooFewFields) <==> |w| < 3)
      && (r == Invalid(TooManyFields) <==> |w| > 3)
      && (|w| == 3 ==>
            var first, second, third := FieldOk(w[0], 0, 59), FieldOk(w[1], 0, 23), FieldOk(w[2], 0, 6);
            var long, long', long'' := Overflows(w[0], 0, 59), Overflows(w[1], 0, 23), Overflows(w[2], 0, 6);
            && (r == Invalid(BadMinute) <==> !first && !long)
            && (r == Invalid(BadHour) <==> first && !second && !long')
            && (r == Invalid(BadDayOfWeek) <==> first && second && !third && !long'')
            && (r == Threw <==> long || (first && long') || (first && second && long'')))
  {
    var w := Words(expr);
    if |w| == 3 {
      FieldMeaning(w[0], 0, 59);
      FieldMeaning(w[1], 0, 23);
      FieldMeaning(w[2], 0, 6);
      FieldOverflow(w[0], 0, 59);
      FieldOverflow(w[1], 0, 23);
      FieldOverflow(w[2], 0, 6);
    }
  }

  method ParseCronExpr(expr: string) returns (result: ExprResult)
    ensures result == ReadExpr(expr)
    ensures result.Parsed? <==> ExprOk(Words(expr))
    ensures result.Parsed? ==> result.schedule == ExprValues(Words(expr))
  {
    ExprMeaning(expr);
    var words := Words(expr);
    if |words| < 3 {
      return Invalid(TooFewFields);
    }
    if |words| > 3 {
      return Invalid(TooManyFields);
    }
    var minutes := ParseCronField(words[0], 0, 59);
    if !minutes.Accepted? {
      return if minutes.Overflow? then Threw else Invalid(BadMinute);
    }
    var hours := ParseCronField(words[1], 0, 23);
    if !hours.Accepted? {
      return if hours.Overflow? then Threw else Invalid(BadHour);
    }
    var weekdays := ParseCronField(words[2], 0, 6);
    if !weekdays.Accepted? {
      return if weekdays.Overflow? then Threw else Invalid(BadDayOfWeek);
    }
    return Parsed(Schedule(minutes.values, hours.values, weekdays.values));
  }

  // A schedule that some minute of the week matches.
  ghost predicate Usable(s: Schedule) {
    && (exists v :: v in s.minutes) && (exists v :: v in s.hours) && (exists v :: v in s.weekdays)
    && Within(s.minutes, 0, 59) && Within(s.hours, 0, 23) && Within(s.weekdays, 0, 6)
  }

  ghost predicate Within(values: set<int>, min: int, max: int) {
    forall v :: v in values ==> min <= v <= max
  }

  // Main result 2. Whatever the parser accepts is usable.
  lemma ParsedIsUsable(expr: string)
    requires ReadExpr(expr).Parsed?
    ensures Usable(ReadExpr(expr).schedule)
  {
    var words := Words(expr);
    AcceptedInRange(words[0], 0, 59);
    AcceptedInRange(words[1], 0, 23);
    AcceptedInRange(words[2], 0, 6);
  }

  lemma AcceptedInRange(field: string, min: int, max: int)
    requires max <= INT_MAX && ReadField(field, min, max).Accepted?
    ensures exists v :: v in ReadField(field, min, max).values
    ensures Within(ReadField(field, min, max).values, min, max)
  {
    FieldMeaning(field, min, max);
    var values := FieldValues(field, min, max);
    if field == "*" {
      assert min in values;
    } else {
      assert Tokens(field)[0] in Tokens(field);
      assert Decimal.FromDecimal(Tokens(field)[0]) in values;
    }
  }
}
