/** Quoting of a value that is put into a shell command line. */
module ShellQuote {
  import opened Options

  function EscapeQuote(c: char): string {
    if c == '\'' then "'\\''" else [c]
  }

  function EscapeQuotes(s: string): string {
    if s == "" then "" else EscapeQuote(s[0]) + EscapeQuotes(s[1..])
  }

  function Quote(s: string): string {
    "'" + EscapeQuotes(s) + "'"
  }

  /** Where the shell is while it reads a line: between words, in one, or inside single quotes. */
  datatype Mode = Between | InWord(text: string) | Quoted(text: string)

  function TextSoFar(mode: Mode): string {
    if mode.Between? then "" else mode.text
  }

  /** Characters that mean something to the shell unless they are quoted. */
  predicate Special(c: char) {
    c in {'|', '&', ';', '<', '>', '(', ')', '$', '`', '"', '\n', '*', '?', '[', '#', '~', '=', '%'}
  }

  /**
   The words of a line by section 2.2 of the POSIX.1-2017 Shell Command
   Language. Nothing when the line is unfinished, or holds an unquoted
   character that makes the shell do more than read words.
   */
  function Read(s: string, mode: Mode): Option<seq<string>>
    decreases |s|
  {
    if s == "" then
      match mode
      case Between => Some([])
      case InWord(text) => Some([text])
      case Quoted(_) => None
    else if mode.Quoted? then
      if s[0] == '\'' then Read(s[1..], InWord(mode.text))
      else Read(s[1..], Quoted(mode.text + [s[0]]))
    else if s[0] == '\'' then Read(s[1..], Quoted(TextSoFar(mode)))
    else if s[0] == '\\' then
      if |s| == 1 then None
      else if s[1] == '\n' then Read(s[2..], mode)
      else Read(s[2..], InWord(TextSoFar(mode) + [s[1]]))
    else if s[0] == ' ' || s[0] == '\t' then
      var others := Read(s[1..], Between);
      if mode.InWord? && others.Some? then Some([mode.text] + others.value) else others
    else if Special(s[0]) then None
    else Read(s[1..], InWord(TextSoFar(mode) + [s[0]]))
  }

  lemma Step(s: string, c: char, rest: string)
    requires s == [c] + rest
    ensures s != "" && s[0] == c && s[1..] == rest
  {
  }

  /** Outside quotes the reader gives no words for a character that makes the shell do more, and joins continued lines. */
  lemma {:induction false} UnquotedStops(a: string, c: char, rest: string, mode: Mode)
    requires !mode.Quoted? && forall i | 0 <= i < |a| :: !Special(a[i]) && a[i] !in {'\'', '\\', ' ', '\t'}
    requires c in {'|', '&', ';', '<', '>', '(', ')', '$', '`', '"', '\n', '*', '?', '[', '#', '~', '=', '%'}
    ensures Read(a + ([c] + rest), mode).None? && Read("\\\n" + rest, mode) == Read(rest, mode)
  {
    var s := a + ([c] + rest);
    if a == "" {
      assert s == [c] + rest && s[0] == c;
    } else {
      assert s[0] == a[0] && s[1..] == a[1..] + ([c] + rest);
      UnquotedStops(a[1..], c, rest, InWord(TextSoFar(mode) + [a[0]]));
    }
    assert ("\\\n" + rest)[2..] == rest;
  }

  /** A quote inside the value leaves the quotes, adds one escaped quote, and enters them again. */
  lemma ReadEscapedQuote(rest: string, text: string)
    ensures Read("'\\''" + rest, Quoted(text)) == Read(rest, Quoted(text + "'"))
  {
    var s3 := "'" + rest;
    var s2 := "\\'" + s3;
    var s1 := "'" + s2;
    assert "'\\''" + rest == s1;
    Step(s1, '\'', s2);
    assert Read(s1, Quoted(text)) == Read(s2, InWord(text));
    assert s2[0] == '\\' && s2[1] == '\'' && s2[2..] == s3;
    assert Read(s2, InWord(text)) == Read(s3, InWord(text + "'"));
    Step(s3, '\'', rest);
  }

  lemma ReadCharacter(c: char, inner: string, text: string)
    ensures Read(EscapeQuote(c) + inner, Quoted(text)) == Read(inner, Quoted(text + [c]))
  {
    if c == '\'' { ReadEscapedQuote(inner, text); } else { Step([c] + inner, c, inner); }
  }

  lemma EscapeSplits(s: string, tail: string)
    requires s != ""
    ensures EscapeQuotes(s) + tail == EscapeQuote(s[0]) + (EscapeQuotes(s[1..]) + tail)
  {
  }

  lemma TextSplits(text: string, s: string)
    ensures text + "" == text && "" + text == text
    ensures s != "" ==> (text + [s[0]]) + s[1..] == text + s
  {
  }

  lemma QuoteEnds(rest: string, text: string)
    ensures Read("'" + rest, Quoted(text)) == Read(rest, InWord(text))
  {
    Step("'" + rest, '\'', rest);
  }

  lemma {:induction false} ReadInside(s: string, rest: string, text: string)
    ensures Read(EscapeQuotes(s) + ("'" + rest), Quoted(text)) == Read(rest, InWord(text + s))
  {
    var tail := "'" + rest;
    TextSplits(text, s);
    if s == "" {
      TextSplits(tail, "");
      QuoteEnds(rest, text);
    } else {
      EscapeSplits(s, tail);
      ReadCharacter(s[0], EscapeQuotes(s[1..]) + tail, text);
      ReadInside(s[1..], rest, text + [s[0]]);
    }
  }

  /**
   Wherever it stands outside quotes, a quoted value adds exactly the value to
   the word being read, and what follows is read as it would be without it.
   */
  lemma QuotedValueIsText(s: string, rest: string, mode: Mode)
    requires !mode.Quoted?
    ensures Read(Quote(s) + rest, mode) == Read(rest, InWord(TextSoFar(mode) + s))
  {
    var line := Quote(s) + rest;
    assert line == "'" + (EscapeQuotes(s) + ("'" + rest));
    Step(line, '\'', EscapeQuotes(s) + ("'" + rest));
    ReadInside(s, rest, TextSoFar(mode));
  }

  lemma OneWord(s: string)
    ensures Read(Quote(s), Between) == Some([s])
  {
    QuotedValueIsText(s, "", Between);
    assert Quote(s) + "" == Quote(s);
    assert "" + s == s;
  }

  // ------------------------------------------------------- command lines

  /** A word the program writes itself, or a value it was given. */
  datatype Piece = Bare(text: string) | Given(text: string)

  predicate Plain(c: char) {
    !Special(c) && c != '\'' && c != '\\' && c != ' ' && c != '\t'
  }

  predicate Written(p: Piece) {
    p.Bare? ==> p.text != "" && forall i | 0 <= i < |p.text| :: Plain(p.text[i])
  }

  function Spelled(p: Piece): string {
    if p.Bare? then p.text else Quote(p.text)
  }

  /** The pieces with a space between neighbours. */
  function Line(pieces: seq<Piece>): string {
    if pieces == [] then ""
    else if |pieces| == 1 then Spelled(pieces[0])
    else Spelled(pieces[0]) + (" " + Line(pieces[1..]))
  }

  function Words(pieces: seq<Piece>): seq<string> {
    if pieces == [] then [] else [pieces[0].text] + Words(pieces[1..])
  }

  lemma {:induction false} PlainTextIsText(w: string, rest: string, text: string)
    requires forall i | 0 <= i < |w| :: Plain(w[i])
    ensures Read(w + rest, InWord(text)) == Read(rest, InWord(text + w))
  {
    if w == "" {
      assert w + rest == rest && text + w == text;
    } else {
      Step(w + rest, w[0], w[1..] + rest) by { assert w + rest == [w[0]] + (w[1..] + rest); }
      assert Plain(w[0]);
      PlainTextIsText(w[1..], rest, text + [w[0]]);
      assert text + [w[0]] + w[1..] == text + w;
    }
  }

  lemma WordBegins(c: char, rest: string)
    requires Plain(c)
    ensures Read([c] + rest, Between) == Read(rest, InWord([c]))
  {
    Step([c] + rest, c, rest);
    assert "" + [c] == [c];
  }

  lemma BareIsWord(w: string, rest: string)
    requires w != "" && forall i | 0 <= i < |w| :: Plain(w[i])
    ensures Read(w + rest, Between) == Read(rest, InWord(w))
  {
    assert w + rest == [w[0]] + (w[1..] + rest) && [w[0]] + w[1..] == w;
    WordBegins(w[0], w[1..] + rest);
    PlainTextIsText(w[1..], rest, [w[0]]);
  }

  lemma PieceIsWord(p: Piece, rest: string)
    requires Written(p)
    ensures Read(Spelled(p) + rest, Between) == Read(rest, InWord(p.text))
  {
    if p.Bare? {
      BareIsWord(p.text, rest);
    } else {
      TextSplits(p.text, "");
      QuotedValueIsText(p.text, rest, Between);
    }
  }

  lemma WordThenRest(rest: string, text: string, words: seq<string>)
    requires Read(rest, Between) == Some(words)
    ensures Read(" " + rest, InWord(text)) == Some([text] + words)
  {
    Step(" " + rest, ' ', rest);
  }

  /** A line is read back as its words: values are never taken apart, joined or run. */
  lemma {:induction false} LineRoundTrip(pieces: seq<Piece>)
    requires forall p | p in pieces :: Written(p)
    ensures Read(Line(pieces), Between) == Some(Words(pieces))
  {
    if pieces == [] {
    } else if |pieces| == 1 {
      assert Spelled(pieces[0]) + "" == Spelled(pieces[0]);
      PieceIsWord(pieces[0], "");
      assert Words(pieces) == [pieces[0].text];
    } else {
      var rest := Line(pieces[1..]);
      LineRoundTrip(pieces[1..]);
      PieceIsWord(pieces[0], " " + rest);
      WordThenRest(rest, pieces[0].text, Words(pieces[1..]));
    }
  }

  /** The build arguments as `--env` flags. */
  function EnvPieces(args: seq<(string, string)>): (r: seq<Piece>)
    ensures forall p | p in r :: p.Given? || p.text == "--env"
  {
    if args == [] then []
    else [Bare("--env"), Given(args[0].0 + "=" + args[0].1)] + EnvPieces(args[1..])
  }

  function EnvWords(args: seq<(string, string)>): seq<string> {
    if args == [] then [] else ["--env", args[0].0 + "=" + args[0].1] + EnvWords(args[1..])
  }

  lemma {:induction false} WordsOfEnvPieces(args: seq<(string, string)>)
    ensures Words(EnvPieces(args)) == EnvWords(args)
  {
    if args != [] {
      WordsOfEnvPieces(args[1..]);
      var p := EnvPieces(args);
      assert p[1..][1..] == EnvPieces(args[1..]);
      assert Words(p) == [p[0].text] + ([p[1].text] + Words(p[1..][1..]));
    }
  }

  lemma EnvIsWritten()
    ensures Written(Bare("--env"))
  {
    assert "--env" == ['-', '-', 'e', 'n', 'v'];
    assert Plain('-') && Plain('e') && Plain('n') && Plain('v');
  }

  /** Whatever the names and values are, the helper gets one `--env` and one `name=value` for each. */
  lemma EnvFlagsRoundTrip(args: seq<(string, string)>)
    ensures Read(Line(EnvPieces(args)), Between) == Some(EnvWords(args))
  {
    EnvIsWritten();
    assert forall p | p in EnvPieces(args) :: Written(p) by {
      forall p | p in EnvPieces(args) ensures Written(p) {
        assert p.Given? || p == Bare("--env");
      }
    }
    LineRoundTrip(EnvPieces(args));
    WordsOfEnvPieces(args);
  }
}
