/** Quoting an argument vector for `sh -c`, and a shell that reads words back: token recognition,
    quoting and quote removal of POSIX.1-2017 (XCU sections 2.2, 2.3 and 2.6.7). */
module ShellQuote {
  import opened Options

  datatype Mode = Bare | Escaped | Single | Double | DoubleEscaped

  predicate IsOperator(c: char) {
    c == '&' || c == '|' || c == ';' || c == '<' || c == '>' || c == '(' || c == ')' || c == '\n'
  }

  /** What starts an expansion anywhere in an unquoted word. */
  predicate Expands(c: char) {
    c == '$' || c == '`' || c == '*' || c == '?' || c == '['
  }

  /** Adding a character to the word being read. */
  function Grown(word: Option<string>, c: char): Option<string> {
    Some((if word.None? then "" else word.value) + [c])
  }

  function Opened(word: Option<string>): Option<string> {
    if word.None? then Some("") else word
  }

  function Ended(word: Option<string>, rest: Option<seq<string>>): Option<seq<string>> {
    if rest.None? then None else Some((if word.None? then [] else [word.value]) + rest.value)
  }

  /** The words of a text, with their quotes removed. There are none when the text is more than
      plain words: an operator, an expansion, a comment, or a quote that does not end. */
  function Words(text: string, word: Option<string>, mode: Mode): Option<seq<string>>
    decreases |text|
  {
    if text == "" then
      if mode == Bare then Ended(word, Some([])) else None
    else
      var c, rest := text[0], text[1..];
      match mode
      case Bare =>
        if c == ' ' || c == '\t' then Ended(word, Words(rest, None, Bare))
        else if IsOperator(c) || Expands(c) then None
        else if word.None? && (c == '#' || c == '~') then None
        else if c == '\\' then Words(rest, word, Escaped)
        else if c == '\'' then Words(rest, Opened(word), Single)
        else if c == '"' then Words(rest, Opened(word), Double)
        else Words(rest, Grown(word, c), Bare)
      case Escaped =>
        if c == '\n' then Words(rest, word, Bare) else Words(rest, Grown(word, c), Bare)
      case Single =>
        if c == '\'' then Words(rest, word, Bare) else Words(rest, Grown(word, c), Single)
      case Double =>
        if c == '"' then Words(rest, word, Bare)
        else if c == '\\' then Words(rest, word, DoubleEscaped)
        else if c == '$' || c == '`' then None
        else Words(rest, Grown(word, c), Double)
      case DoubleEscaped =>
        if c == '\n' then Words(rest, word, Double)
        else if c == '$' || c == '`' || c == '"' || c == '\\' then Words(rest, Grown(word, c), Double)
        else Words(rest, Grown(Grown(word, '\\'), c), Double)
  }

  /** The characters that make the source quote a word. */
  predicate IsSpecial(c: char) {
    || c == ' ' || c == '\t' || c == '\n' || c == '\\' || c == '"' || c == '\'' || c == '`' || c == '$'
    || c == '&' || c == '|' || c == ';' || c == '<' || c == '>' || c == '(' || c == ')' || c == '{'
    || c == '}' || c == '[' || c == ']' || c == '*' || c == '?' || c == '!' || c == '~' || c == '#'
  }

  /** Every single quote replaced by a closing quote, an escaped quote and an opening quote. */
  function Escape(s: string): string {
    if s == "" then "" else (if s[0] == '\'' then "'\\''" else [s[0]]) + Escape(s[1..])
  }

  function Quote(s: string): string {
    if s != "" && forall c | c in s :: !IsSpecial(c) then s else "'" + Escape(s) + "'"
  }

  function Join(argv: seq<string>): string {
    if argv == [] then ""
    else if |argv| == 1 then Quote(argv[0])
    else Quote(argv[0]) + " " + Join(argv[1..])
  }

  lemma {:induction false} PlainRun(s: string, rest: string, w: string)
    requires forall c | c in s :: !IsSpecial(c)
    ensures Words(s + rest, Some(w), Bare) == Words(rest, Some(w + s), Bare)
  {
    if s == "" {
      assert s + rest == rest && w + s == w;
    } else {
      assert s[0] in s;
      assert (s + rest)[1..] == s[1..] + rest;
      PlainRun(s[1..], rest, w + [s[0]]);
      assert w + [s[0]] + s[1..] == w + s;
    }
  }

  lemma QuoteStep(rest: string, w: string)
    ensures Words("'\\''" + rest, Some(w), Single) == Words(rest, Some(w + "'"), Single)
  {
    var t := "'\\''" + rest;
    assert t[1..] == "\\''" + rest && t[1..][1..] == "''" + rest && t[1..][1..][1..] == "'" + rest;
    assert t[1..][1..][1..][1..] == rest;
    assert Words(t, Some(w), Single) == Words("\\''" + rest, Some(w), Bare);
    assert Words("\\''" + rest, Some(w), Bare) == Words("''" + rest, Some(w), Escaped);
    assert Words("''" + rest, Some(w), Escaped) == Words("'" + rest, Some(w + "'"), Bare);
  }

  lemma InQuotes(c: char, rest: string, w: string)
    ensures Words([c] + rest, Some(w), Single) == if c == '\'' then Words(rest, Some(w), Bare)
            else Words(rest, Some(w + [c]), Single)
  {
    assert ([c] + rest)[1..] == rest;
  }

  lemma {:induction false} QuotedRun(s: string, rest: string, w: string)
    ensures Words(Escape(s) + "'" + rest, Some(w), Single) == Words(rest, Some(w + s), Bare)
  {
    hide Words;
    if s == "" {
      InQuotes('\'', rest, w);
      assert Escape(s) + "'" + rest == ['\''] + rest && w + s == w;
    } else {
      var tail := Escape(s[1..]) + "'" + rest;
      QuotedRun(s[1..], rest, w + [s[0]]);
      assert w + [s[0]] + s[1..] == w + s;
      if s[0] == '\'' {
        assert Escape(s) + "'" + rest == "'\\''" + tail;
        QuoteStep(tail, w);
        assert w + "'" == w + [s[0]];
      } else {
        InQuotes(s[0], tail, w);
        assert Escape(s) + "'" + rest == [s[0]] + tail;
      }
    }
  }

  lemma OpensQuote(rest: string)
    ensures Words("'" + rest, None, Bare) == Words(rest, Some(""), Single)
  {
    assert ("'" + rest)[1..] == rest;
  }

  lemma OpensWord(c: char, rest: string)
    requires !IsSpecial(c)
    ensures Words([c] + rest, None, Bare) == Words(rest, Some([c]), Bare)
  {
    assert ([c] + rest)[1..] == rest && "" + [c] == [c];
  }

  /** A quoted word is read as exactly the word, whatever follows. */
  lemma QuoteIsOneWord(s: string, rest: string)
    ensures Words(Quote(s) + rest, None, Bare) == Words(rest, Some(s), Bare)
  {
    hide Words, IsSpecial, Escape;
    if s != "" && forall c | c in s :: !IsSpecial(c) {
      assert s[0] in s;
      OpensWord(s[0], s[1..] + rest);
      assert [s[0]] + (s[1..] + rest) == Quote(s) + rest;
      PlainRun(s[1..], rest, [s[0]]);
      assert [s[0]] + s[1..] == s;
    } else {
      var quoted := Escape(s) + "'" + rest;
      OpensQuote(quoted);
      assert "'" + quoted == Quote(s) + rest;
      QuotedRun(s, rest, "");
      assert "" + s == s;
    }
  }

  /** Splitting the joined text gives back the arguments, empty words and quotes included. */
  lemma {:induction false} JoinReadsBack(argv: seq<string>)
    ensures Words(Join(argv), None, Bare) == Some(argv)
  {
    if argv == [] {
      var none: seq<string> := [];
      assert none + none == argv;
    } else if |argv| == 1 {
      QuoteIsOneWord(argv[0], "");
      assert Quote(argv[0]) + "" == Join(argv) && argv == [argv[0]] + [];
    } else {
      var rest := " " + Join(argv[1..]);
      QuoteIsOneWord(argv[0], rest);
      assert Quote(argv[0]) + rest == Join(argv) && rest[1..] == Join(argv[1..]);
      JoinReadsBack(argv[1..]);
      assert argv == [argv[0]] + argv[1..];
    }
  }

  /** Two argument vectors never share a text. */
  lemma JoinIsInjective(a: seq<string>, b: seq<string>)
    requires Join(a) == Join(b)
    ensures a == b
  {
    JoinReadsBack(a);
    JoinReadsBack(b);
  }

  /** What ordinary options, paths and assignments are made of. */
  predicate IsOrdinary(c: char) {
    || 'a' <= c <= 'z' || 'A' <= c <= 'Z' || '0' <= c <= '9'
    || c in {'-', '_', '.', '/', ':', '=', ',', '@', '%', '+'}
  }

  /** Ordinary words are left as they are. */
  lemma OrdinaryWordsStay(argv: seq<string>)
    requires |argv| == 1 && argv[0] != "" && forall c | c in argv[0] :: IsOrdinary(c)
    ensures Join(argv) == argv[0]
  {
  }

  /** A word that no quotes surround is made of nothing that the shell would interpret. */
  lemma BareWordsAreSafe(s: string, c: char)
    requires Quote(s) == s && c in s
    ensures !IsOperator(c) && !Expands(c) && c !in {' ', '\t', '\\', '"', '\'', '#', '~'}
  {
    if exists x :: x in s && IsSpecial(x) {
      EscapeGrows(s);
    }
  }

  lemma {:induction false} EscapeGrows(s: string)
    ensures |Escape(s)| >= |s|
  {
    if s != "" {
      EscapeGrows(s[1..]);
    }
  }
}
