// Shell quoting, and the command line that the browser relay builds with it, against a
// lexer for the quoting rules of the POSIX Shell Command Language, sections 2.2.1
// (backslash) and 2.2.2 (single quotes).
module Shell {
  import opened Prelude

  const NUL: char := '\0'

  // ------------------------------------------------------------------
  // The printer

  function QuoteChars(value: string): string {
    if value == "" then ""
    else QuoteChars(value[..|value| - 1]) + (if value[|value| - 1] == '\'' then "'\\''" else [value[|value| - 1]])
  }

  function Quoted(value: string): string {
    "'" + QuoteChars(value) + "'"
  }

  method Quote(value: string) returns (out: string)
    ensures out == Quoted(value)
    ensures ShellWords(out) == Some([value]) <==> NUL !in value
  {
    out := "'";
    for i := 0 to |value|
      invariant out == "'" + QuoteChars(value[..i])
    {
      assert value[..i + 1][..i] == value[..i];
      if value[i] == '\'' {
        out := out + "'\\''";
      } else {
        out := out + [value[i]];
      }
    }
    assert value[..|value|] == value;
    out := out + "'";
    QuoteRoundTrip(value);
  }

  // ------------------------------------------------------------------
  // The lexer

  // A C string ends at its first NUL; that is all popen ever sees of a std::string.
  function CString(s: string): string {
    if s == "" || s[0] == NUL then "" else [s[0]] + CString(s[1..])
  }

  predicate Blank(c: char) {
    c == ' ' || c == '\t'
  }

  // Characters that the shell treats specially outside quotes by rules other than the two
  // sections above: operators, expansions, globs, comments, double quotes, newline.
  predicate Special(c: char) {
    || c == '|' || c == '&' || c == ';' || c == '<' || c == '>' || c == '(' || c == ')'
    || c == '$' || c == '`' || c == '"' || c == '*' || c == '?' || c == '[' || c == '#'
    || c == '~' || c == '=' || c == '%' || c == '\n'
  }

  // Outside quotes. `word` is the word under construction, if one has begun.
  function Lex(s: string, word: Option<string>): Option<seq<string>>
    decreases |s|, 1
  {
    if s == "" then Some(Flush(word))
    else if Blank(s[0]) then
      var rest :- Lex(s[1..], None);
      Some(Flush(word) + rest)
    else if s[0] == '\'' then LexSingle(s[1..], Begun(word))
    else if s[0] == '\\' then
      if |s| < 2 || s[1] == '\n' then None
      else Lex(s[2..], Some(Begun(word) + [s[1]]))
    else if Special(s[0]) then None
    else Lex(s[1..], Some(Begun(word) + [s[0]]))
  }

  // Inside single quotes every character is literal, and only a quote ends them.
  function LexSingle(s: string, word: string): Option<seq<string>>
    decreases |s|, 0
  {
    if s == "" then None
    else if s[0] == '\'' then Lex(s[1..], Some(word))
    else LexSingle(s[1..], word + [s[0]])
  }

  function Begun(word: Option<string>): string {
    if word.Some? then word.value else ""
  }

  function Flush(word: Option<string>): seq<string> {
    if word.Some? then [word.value] else []
  }

  function ShellWords(command: string): Option<seq<string>> {
    Lex(CString(command), None)
  }

  // ------------------------------------------------------------------
  // The command line of runOpenClawBrowser

  function JoinQuoted(args: seq<string>): string {
    if args == [] then ""
    else JoinQuoted(args[..|args| - 1]) + " " + Quoted(args[|args| - 1])
  }

  function CommandHead(binary: string, profile: string): string {
    Quoted(binary) + " browser --json" + if profile == "" then "" else " --browser-profile " + Quoted(profile)
  }

  function CommandLine(binary: string, profile: string, args: seq<string>): string {
    CommandHead(binary, profile) + JoinQuoted(args)
  }

  function Argv(binary: string, profile: string, args: seq<string>): seq<string> {
    [binary] + ["browser", "--json"] + (if profile == "" then [] else ["--browser-profile", profile]) + args
  }

  predicate NoNul(words: seq<string>) {
    forall i :: 0 <= i < |words| ==> '\0' !in words[i]
  }

  // The intended words, written out.
  lemma ArgvMeaning(binary: string, profile: string, args: seq<string>)
    ensures profile == "" ==> Argv(binary, profile, args) == [binary, "browser", "--json"] + args
    ensures profile != "" ==>
      Argv(binary, profile, args) == [binary, "browser", "--json", "--browser-profile", profile] + args
    ensures profile == "" && NoNul([binary] + args) ==> forall arg :: arg in Argv(binary, profile, args) ==> NUL !in arg
    ensures profile != "" && NoNul([binary, profile] + args) ==>
      forall arg :: arg in Argv(binary, profile, args) ==> NUL !in arg
  {
    if profile == "" {
      InNoNul([binary], args);
    } else {
      InNoNul([binary, profile], args);
    }
  }

  lemma InNoNul(head: seq<string>, args: seq<string>)
    ensures NoNul(head + args) ==> forall arg :: arg in head || arg in args ==> '\0' !in arg
  {
    if NoNul(head + args) {
      forall arg | arg in head || arg in args
        ensures '\0' !in arg
      {
        assert arg in head + args;
      }
    }
  }

  // An empty binary is refused; otherwise the command is built piece by piece.
  method BuildCommand(binary: string, profile: string, args: seq<string>) returns (command: Option<string>)
    ensures command.None? <==> binary == ""
    ensures command.Some? ==> command.value == CommandLine(binary, profile, args)
    ensures command.Some? ==>
      (ShellWords(command.value) == Some(Argv(binary, profile, args)) <==>
        forall arg :: arg in Argv(binary, profile, args) ==> NUL !in arg)
    // the shell runs the binary with these words and no others
    ensures command.Some? && profile == "" && NoNul([binary] + args) ==>
      ShellWords(command.value) == Some([binary, "browser", "--json"] + args)
    ensures command.Some? && profile != "" && NoNul([binary, profile] + args) ==>
      ShellWords(command.value) == Some([binary, "browser", "--json", "--browser-profile", profile] + args)
  {
    ArgvMeaning(binary, profile, args);
    if binary == "" {
      return None;
    }
    var cmd := Quote(binary);
    cmd := cmd + " browser --json";
    if profile != "" {
      var q := Quote(profile);
      cmd := cmd + (" --browser-profile " + q);
    }
    assert cmd == CommandHead(binary, profile);
    for i := 0 to |args|
      invariant cmd == CommandHead(binary, profile) + JoinQuoted(args[..i])
    {
      assert args[..i + 1][..i] == args[..i];
      var q := Quote(args[i]);
      RegroupFour(CommandHead(binary, profile), JoinQuoted(args[..i]), " ", q);
      cmd := cmd + " " + q;
    }
    assert args[..|args|] == args;
    CommandRoundTrip(binary, profile, args);
    return Some(cmd);
  }

  // ------------------------------------------------------------------
  // Proofs

  lemma QuoteCharsConcat(a: string, b: string)
    ensures QuoteChars(a + b) == QuoteChars(a) + QuoteChars(b)
    decreases |b|
  {
    if b == "" {
      assert a + b == a;
    } else {
      QuoteCharsConcat(a, b[..|b| - 1]);
      assert (a + b)[..|a + b| - 1] == a + b[..|b| - 1];
    }
  }

  // Inside an open quote, the printed characters read back as themselves, whatever follows.
  lemma {:induction false} ReadQuoted(value: string, rest: string, word: string)
    ensures LexSingle(QuoteChars(value) + "'" + rest, word) == Lex(rest, Some(word + value))
  {
    if value == "" {
      assert QuoteChars(value) + "'" + rest == "'" + rest;
      assert word + value == word;
    } else {
      var c, tail := value[0], value[1..];
      assert value == [c] + tail;
      QuoteCharsConcat([c], tail);
      assert QuoteChars([c]) == if c == '\'' then "'\\''" else [c];
      var after := QuoteChars(tail) + "'" + rest;
      ReadQuoted(tail, rest, word + [c]);
      assert word + [c] + tail == word + value;
      if c == '\'' {
        EscapedQuote(after, word);
        assert QuoteChars(value) + "'" + rest == "'\\''" + after;
      } else {
        assert QuoteChars(value) + "'" + rest == [c] + after;
      }
    }
  }

  // Close the quote, write an escaped quote, open it again.
  lemma EscapedQuote(after: string, word: string)
    ensures LexSingle("'\\''" + after, word) == LexSingle(after, word + "'")
  {
    var s := "'\\''" + after;
    assert s[0] == '\'' && s[1] == '\\' && s[2] == '\'' && s[3] == '\'';
    assert s[1..][0] == '\\' && s[1..][1] == '\'' && s[1..][2..] == "'" + after;
    assert ("'" + after)[1..] == after;
    assert Lex(s[1..], Some(word)) == Lex("'" + after, Some(word + "'"));
  }

  lemma ReadWord(value: string, rest: string)
    ensures Lex(Quoted(value) + rest, None) == Lex(rest, Some(value))
  {
    var s := Quoted(value) + rest;
    assert s[0] == '\'' && s[1..] == QuoteChars(value) + "'" + rest;
    ReadQuoted(value, rest, "");
    assert "" + value == value;
  }

  lemma {:induction false} CStringIsAll(s: string)
    requires NUL !in s
    ensures CString(s) == s
  {
    if s != "" {
      CStringIsAll(s[1..]);
    }
  }

  lemma {:induction false} QuoteCharsNul(value: string)
    ensures NUL in QuoteChars(value) <==> NUL in value
  {
    if value != "" {
      QuoteCharsNul(value[..|value| - 1]);
      assert value == value[..|value| - 1] + [value[|value| - 1]];
      assert NUL !in "'\\''";
    }
  }

  lemma {:induction false} CStringPrefix(a: string, b: string)
    requires NUL !in a
    ensures CString(a + b) == a + CString(b)
  {
    if a == "" {
      assert a + b == b;
    } else {
      CStringPrefix(a[1..], b);
      assert (a + b)[1..] == a[1..] + b;
    }
  }

  // A NUL inside the quotes cuts the command before the quote is closed.
  lemma {:induction false} CutQuote(value: string, rest: string, word: string)
    requires NUL in value
    ensures LexSingle(CString(QuoteChars(value) + rest), word) == None
  {
    var c, tail := value[0], value[1..];
    assert value == [c] + tail;
    QuoteCharsConcat([c], tail);
    assert QuoteChars([c]) == if c == '\'' then "'\\''" else [c];
    var after := QuoteChars(tail) + rest;
    assert QuoteChars(value) + rest == QuoteChars([c]) + after;
    if c != NUL {
      CStringPrefix(QuoteChars([c]), after);
      CutQuote(tail, rest, word + [c]);
      if c == '\'' {
        EscapedQuote(CString(after), word);
      }
    }
  }

  // ------------------------------------------------------------------
  // A command as a list of pieces

  datatype Piece = Plain(word: string) | InQuotes(word: string) {
    function Text(): string {
      if Plain? then word else Quoted(word)
    }

    // A bare word needs no quotes.
    predicate Ok() {
      Plain? ==> word != "" && forall i :: 0 <= i < |word| ==> PlainChar(word[i])
    }
  }

  predicate PlainChar(c: char) {
    'a' <= c <= 'z' || c == '-'
  }

  function Render(pieces: seq<Piece>): string {
    if pieces == [] then "" else " " + pieces[0].Text() + Render(pieces[1..])
  }

  function Words(pieces: seq<Piece>): seq<string> {
    if pieces == [] then [] else [pieces[0].word] + Words(pieces[1..])
  }

  lemma {:induction false} ReadPlain(w: string, rest: string, word: Option<string>)
    requires w != "" && forall i :: 0 <= i < |w| ==> PlainChar(w[i])
    ensures Lex(w + rest, word) == Lex(rest, Some(Begun(word) + w))
  {
    var begun := Begun(word) + [w[0]];
    assert w + rest == [w[0]] + (w[1..] + rest);
    PlainStep(w[0], w[1..] + rest, word);
    if |w| == 1 {
      assert w[1..] + rest == rest && w == [w[0]];
    } else {
      ReadPlain(w[1..], rest, Some(begun));
      assert begun + w[1..] == Begun(word) + w;
    }
  }

  lemma PlainStep(c: char, rest: string, word: Option<string>)
    requires PlainChar(c)
    ensures Lex([c] + rest, word) == Lex(rest, Some(Begun(word) + [c]))
  {
    assert ([c] + rest)[1..] == rest;
  }

  lemma AfterBlank(text: string, rest: string, before: string)
    ensures var tail := Lex(text + rest, None);
      Lex(" " + text + rest, Some(before)) == if tail.Some? then Some([before] + tail.value) else None
  {
    var s := " " + text + rest;
    assert s[0] == ' ' && s[1..] == text + rest;
  }

  // One piece after a blank: the word before it is finished, the piece becomes the word.
  lemma ReadPiece(p: Piece, rest: string, before: string)
    requires p.Ok()
    ensures
      var tail := Lex(rest, Some(p.word));
      Lex(" " + p.Text() + rest, Some(before)) == if tail.Some? then Some([before] + tail.value) else None
  {
    AfterBlank(p.Text(), rest, before);
    if p.Plain? {
      ReadPlain(p.word, rest, None);
      assert "" + p.word == p.word;
    } else {
      ReadWord(p.word, rest);
    }
  }

  lemma {:induction false} ReadPieces(pieces: seq<Piece>, before: string)
    requires forall p <- pieces :: p.Ok()
    requires forall p <- pieces :: NUL !in p.word
    ensures Lex(CString(Render(pieces)), Some(before)) == Some([before] + Words(pieces))
  {
    if pieces == [] {
      assert [before] + [] == [before];
    } else {
      var p, rest := pieces[0], Render(pieces[1..]);
      ReadPieces(pieces[1..], p.word);
      QuotedHasNoNul(p.word);
      CStringPrefix(" " + p.Text(), rest);
      ReadPiece(p, CString(rest), before);
      assert [before] + ([p.word] + Words(pieces[1..])) == [before] + Words(pieces);
    }
  }

  lemma QuotedThen(value: string, rest: string)
    ensures Quoted(value) + rest == "'" + (QuoteChars(value) + ("'" + rest))
  {
  }

  // A NUL in the first piece.
  lemma CutFirstPiece(p: Piece, rest: string, before: string)
    requires p.Ok() && NUL in p.word
    ensures Lex(CString(" " + p.Text() + rest), Some(before)) == None
  {
    var k :| 0 <= k < |p.word| && p.word[k] == NUL;
    assert p.InQuotes?;
    var inner := QuoteChars(p.word) + ("'" + rest);
    QuotedThen(p.word, rest);
    assert " " + p.Text() + rest == " '" + inner;
    CStringPrefix(" '", inner);
    CutQuote(p.word, "'" + rest, "");
    OpenQuote(CString(inner), before);
  }

  lemma OpenQuote(s: string, before: string)
    requires LexSingle(s, "") == None
    ensures Lex(" '" + s, Some(before)) == None
  {
    var all := " '" + s;
    assert all[0] == ' ' && all[1..] == "'" + s;
    assert ("'" + s)[0] == '\'' && ("'" + s)[1..] == s;
    assert Lex("'" + s, None) == None;
  }

  lemma {:induction false} CutPieces(pieces: seq<Piece>, before: string, i: nat)
    requires forall p <- pieces :: p.Ok()
    requires i < |pieces| && NUL in pieces[i].word
    ensures Lex(CString(Render(pieces)), Some(before)) == None
  {
    var p, rest := pieces[0], Render(pieces[1..]);
    assert p in pieces;
    if NUL in p.word {
      CutFirstPiece(p, rest, before);
    } else {
      CutPieces(pieces[1..], p.word, i - 1);
      QuotedHasNoNul(p.word);
      CStringPrefix(" " + p.Text(), rest);
      ReadPiece(p, CString(rest), before);
    }
  }

  lemma QuotedHasNoNul(value: string)
    ensures NUL in Quoted(value) <==> NUL in value
  {
    QuoteCharsNul(value);
  }

  lemma {:induction false} WordsHave(pieces: seq<Piece>, arg: string)
    ensures arg in Words(pieces) <==> exists i :: 0 <= i < |pieces| && pieces[i].word == arg
  {
    if pieces != [] {
      WordsHave(pieces[1..], arg);
      assert forall i :: 0 <= i < |pieces| - 1 ==> pieces[1..][i] == pieces[i + 1];
    }
  }

  // A quoted first word followed by pieces reads back as exactly those words if and only
  // if none of them holds a NUL.
  lemma PiecesRoundTrip(first: string, pieces: seq<Piece>)
    requires forall p <- pieces :: p.Ok()
    ensures ShellWords(Quoted(first) + Render(pieces)) == Some([first] + Words(pieces)) <==>
      NUL !in first && forall p <- pieces :: NUL !in p.word
  {
    var command := Quoted(first) + Render(pieces);
    if NUL in first {
      QuotedThen(first, Render(pieces));
      CStringPrefix("'", QuoteChars(first) + ("'" + Render(pieces)));
      CutQuote(first, "'" + Render(pieces), "");
      var s := CString(command);
      assert s[0] == '\'' && s[1..] == CString(QuoteChars(first) + ("'" + Render(pieces)));
    } else {
      QuotedHasNoNul(first);
      CStringPrefix(Quoted(first), Render(pieces));
      ReadWord(first, CString(Render(pieces)));
      if i :| 0 <= i < |pieces| && NUL in pieces[i].word {
        CutPieces(pieces, first, i);
      } else {
        ReadPieces(pieces, first);
      }
    }
  }

  // Main result 1. Quoting any string gives one shell word that is that string; a NUL is
  // the only thing that can break it.
  lemma QuoteRoundTrip(value: string)
    ensures ShellWords(Quoted(value)) == Some([value]) <==> NUL !in value
  {
    PiecesRoundTrip(value, []);
    assert Quoted(value) + Render([]) == Quoted(value);
    assert [value] + Words([]) == [value];
  }

  function AllQuoted(args: seq<string>): (pieces: seq<Piece>)
    ensures |pieces| == |args| && forall i :: 0 <= i < |args| ==> pieces[i] == InQuotes(args[i])
  {
    seq(|args|, i requires 0 <= i < |args| => InQuotes(args[i]))
  }

  lemma {:induction false} RenderConcat(a: seq<Piece>, b: seq<Piece>)
    ensures Render(a + b) == Render(a) + Render(b)
    ensures Words(a + b) == Words(a) + Words(b)
  {
    if a == [] {
      assert a + b == b;
    } else {
      var tail := a[1..];
      assert (a + b)[1..] == tail + b && (a + b)[0] == a[0];
      RenderConcat(tail, b);
      Regroup(" " + a[0].Text(), Render(tail), Render(b));
      Regroup([a[0].word], Words(tail), Words(b));
    }
  }

  lemma AllQuotedSnoc(args: seq<string>, arg: string)
    ensures AllQuoted(args + [arg]) == AllQuoted(args) + [InQuotes(arg)]
  {
  }

  lemma {:induction false} JoinIsRender(args: seq<string>)
    ensures JoinQuoted(args) == Render(AllQuoted(args))
    ensures Words(AllQuoted(args)) == args
  {
    if args != [] {
      var n := |args| - 1;
      var init, last := args[..n], args[n];
      assert args == init + [last];
      JoinIsRender(init);
      AllQuotedSnoc(init, last);
      RenderConcat(AllQuoted(init), [InQuotes(last)]);
      OnePiece(InQuotes(last));
      var open := JoinQuoted(init);
      assert open + " " + Quoted(last) == open + (" " + Quoted(last));
    }
  }

  function CommandPieces(profile: string, args: seq<string>): seq<Piece> {
    [Plain("browser"), Plain("--json")]
    + OptionPieces(profile)
    + AllQuoted(args)
  }

  lemma FixedPieces()
    ensures var fixed := [Plain("browser"), Plain("--json")];
      Render(fixed) == " browser --json" && Words(fixed) == ["browser", "--json"]
  {
    TwoPieces(Plain("browser"), Plain("--json"));
    assert " " + "browser" == " browser" && " " + "--json" == " --json";
    assert " browser" + " --json" == " browser --json";
  }

  lemma ProfilePieces(profile: string)
    ensures var option := [Plain("--browser-profile"), InQuotes(profile)];
      Render(option) == " --browser-profile " + Quoted(profile) && Words(option) == ["--browser-profile", profile]
  {
    TwoPieces(Plain("--browser-profile"), InQuotes(profile));
    assert " " + "--browser-profile" == " --browser-profile";
    assert " --browser-profile" + " " == " --browser-profile ";
    Regroup(" --browser-profile", " ", Quoted(profile));
  }

  lemma TwoPieces(p: Piece, q: Piece)
    ensures Render([p, q]) == " " + p.Text() + (" " + q.Text()) && Words([p, q]) == [p.word, q.word]
  {
    assert [p, q] == [p] + [q];
    OnePiece(p);
    OnePiece(q);
    RenderConcat([p], [q]);
  }

  lemma OnePiece(p: Piece)
    ensures Render([p]) == " " + p.Text() && Words([p]) == [p.word]
  {
    assert [p][1..] == [];
    assert Render([]) == "" && Words([]) == [];
    assert " " + p.Text() + "" == " " + p.Text();
  }

  // Three groups of pieces after the first word, glued in order.
  lemma Glue(first: string, a: seq<Piece>, b: seq<Piece>, c: seq<Piece>)
    ensures Quoted(first) + Render(a) + Render(b) + Render(c) == Quoted(first) + Render(a + b + c)
    ensures [first] + Words(a) + Words(b) + Words(c) == [first] + Words(a + b + c)
  {
    RenderConcat(a, b);
    RenderConcat(a + b, c);
    RegroupFour(Quoted(first), Render(a), Render(b), Render(c));
    RegroupFour([first], Words(a), Words(b), Words(c));
  }

  lemma RegroupFour<T>(a: seq<T>, b: seq<T>, c: seq<T>, d: seq<T>)
    ensures a + b + c + d == a + (b + c + d)
  {
  }

  function OptionPieces(profile: string): seq<Piece> {
    if profile == "" then [] else [Plain("--browser-profile"), InQuotes(profile)]
  }

  lemma HeadIsPieces(binary: string, profile: string)
    ensures CommandHead(binary, profile)
      == Quoted(binary) + Render([Plain("browser"), Plain("--json")]) + Render(OptionPieces(profile))
  {
    FixedPieces();
    ProfilePieces(profile);
  }

  lemma ArgvIsPieces(binary: string, profile: string, args: seq<string>)
    ensures Argv(binary, profile, args)
      == [binary] + Words([Plain("browser"), Plain("--json")]) + Words(OptionPieces(profile)) + args
  {
    FixedPieces();
    ProfilePieces(profile);
    Regroup([binary], ["browser", "--json"], Words(OptionPieces(profile)));
  }

  lemma CommandIsPieces(binary: string, profile: string, args: seq<string>)
    ensures CommandLine(binary, profile, args) == Quoted(binary) + Render(CommandPieces(profile, args))
    ensures Argv(binary, profile, args) == [binary] + Words(CommandPieces(profile, args))
  {
    JoinIsRender(args);
    HeadIsPieces(binary, profile);
    ArgvIsPieces(binary, profile, args);
    Glue(binary, [Plain("browser"), Plain("--json")], OptionPieces(profile), AllQuoted(args));
  }

  // What quoting writes: the text between two single quotes, and each quote inside it as
  // a quote, an escaped one and a quote.
  lemma QuoteMeaning(a: string, b: string)
    requires '\'' !in a
    ensures Quoted(a) == "'" + a + "'"
    ensures Quoted(a + "'" + b) == "'" + a + "'\\'" + Quoted(b)
  {
    QuoteCharsPlain(a);
    QuoteCharsConcat(a + "'", b);
    QuoteCharsConcat(a, "'");
    assert QuoteChars("'") == QuoteChars("") + "'\\''" by {
      assert "'"[..0] == "";
    }
    QuotesMeet(a, QuoteChars(b));
  }

  lemma QuotesMeet(a: string, rest: string)
    ensures "'" + (a + "'\\''" + rest) + "'" == "'" + a + "'\\'" + ("'" + rest + "'")
  {
  }

  lemma {:induction false} QuoteCharsPlain(a: string)
    requires '\'' !in a
    ensures QuoteChars(a) == a
  {
    if a != "" {
      var n := |a| - 1;
      QuoteCharsPlain(a[..n]);
      assert a == a[..n] + [a[n]];
      assert a[n] in a;
    }
  }

  // Main result 2. The shell splits the relay's command line into exactly the intended
  // argument vector, whatever the profile and the arguments contain; NUL is the only
  // exception, and always one.
  lemma CommandRoundTrip(binary: string, profile: string, args: seq<string>)
    ensures ShellWords(CommandLine(binary, profile, args)) == Some(Argv(binary, profile, args)) <==>
      forall arg :: arg in Argv(binary, profile, args) ==> NUL !in arg
  {
    var pieces := CommandPieces(profile, args);
    CommandIsPieces(binary, profile, args);
    PiecesOk(profile, args);
    PiecesRoundTrip(binary, pieces);
    forall arg: string
      ensures arg in Words(pieces) <==> exists i :: 0 <= i < |pieces| && pieces[i].word == arg
    {
      WordsHave(pieces, arg);
    }
    assert (forall arg :: arg in Words(pieces) ==> NUL !in arg) <==> (forall p <- pieces :: NUL !in p.word);
  }

  lemma PiecesOk(profile: string, args: seq<string>)
    ensures forall p <- CommandPieces(profile, args) :: p.Ok()
  {
    PlainWord("browser");
    PlainWord("--json");
    PlainWord("--browser-profile");
  }

  lemma PlainWord(w: string)
    requires w in ["browser", "--json", "--browser-profile"]
    ensures Plain(w).Ok()
  {
    if w == "browser" {
      assert Plain(w).Ok();
    } else if w == "--json" {
      assert Plain(w).Ok();
    } else {
      assert w == "--browser-profile";
      assert Plain(w).Ok();
    }
  }
}
