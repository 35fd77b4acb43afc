/** The command splitter: one string in, the argv it stands for out, nothing expanded. */
module Splitting {

  /** Unicode's White_Space characters. */
  predicate IsSpace(c: char) {
    || c in "\t\n\U{0B}\U{0C}\r \U{85}\U{A0}\U{1680}\U{2028}\U{2029}\U{202F}\U{205F}\U{3000}"
    || '\U{2000}' <= c <= '\U{200A}'
  }

  datatype Quote = Unquoted | Single | Double

  datatype Argv = Words(argv: seq<string>) | TrailingBackslash | Unterminated(quote: char) | EmptyCommand

  /** What the splitter has read: the words over, and the word it is in, if any. */
  datatype Scanner = Scanner(argv: seq<string>, cur: string, inWord: bool, quote: Quote) {
    function Write(c: char): Scanner {
      this.(cur := cur + [c], inWord := true)
    }

    function Gap(): Scanner {
      if inWord then Scanner(argv + [cur], "", false, quote) else this
    }

    function Argv(): Argv {
      match quote
      case Single => Unterminated('\'')
      case Double => Unterminated('"')
      case Unquoted =>
        var words := if inWord then argv + [cur] else argv;
        if words == [] || words[0] == "" then EmptyCommand else Words(words)
    }
  }

  const START := Scanner([], "", false, Unquoted)

  /** A backslash in double quotes escapes only a quote or a backslash. */
  predicate EscapesInDouble(s: string) {
    |s| >= 2 && s[0] == '\\' && (s[1] == '"' || s[1] == '\\')
  }

  /** The argv of a scanner that goes on to read s. */
  function Scan(st: Scanner, s: string): Argv
    decreases |s|
  {
    if s == "" then st.Argv()
    else
      var c := s[0];
      match st.quote
      case Single => Scan(if c == '\'' then st.(quote := Unquoted) else st.(cur := st.cur + [c]), s[1..])
      case Double =>
        if c == '"' then Scan(st.(quote := Unquoted), s[1..])
        else if EscapesInDouble(s) then Scan(st.(cur := st.cur + [s[1]]), s[2..])
        else Scan(st.(cur := st.cur + [c]), s[1..])
      case Unquoted =>
        if c == '\'' then Scan(st.(quote := Single, inWord := true), s[1..])
        else if c == '"' then Scan(st.(quote := Double, inWord := true), s[1..])
        else if c == '\\' then
          if |s| == 1 then TrailingBackslash else Scan(st.Write(s[1]), s[2..])
        else if IsSpace(c) then Scan(st.Gap(), s[1..])
        else Scan(st.Write(c), s[1..])
  }

  function Split(s: string): Argv {
    Scan(START, s)
  }

  method SplitCommand(rs: string) returns (r: Argv)
    ensures r == Split(rs)
  {
    var argv: seq<string>, cur, inWord, quote := [], "", false, Unquoted;
    var i := 0;
    while i < |rs|
      invariant 0 <= i <= |rs|
      invariant Split(rs) == Scan(Scanner(argv, cur, inWord, quote), rs[i..])
    {
      var c := rs[i];
      assert rs[i..][1..] == rs[i + 1..];
      assert i + 1 < |rs| ==> rs[i..][1] == rs[i + 1] && rs[i..][2..] == rs[i + 2..];
      if quote == Single {
        if c == '\'' {
          quote := Unquoted;
        } else {
          cur := cur + [c];
        }
      } else if quote == Double {
        if c == '"' {
          quote := Unquoted;
        } else if c == '\\' && i + 1 < |rs| && (rs[i + 1] == '"' || rs[i + 1] == '\\') {
          i := i + 1;
          cur := cur + [rs[i]];
        } else {
          cur := cur + [c];
        }
      } else if c == '\'' || c == '"' {
        quote, inWord := if c == '\'' then Single else Double, true;
      } else if c == '\\' {
        if i + 1 == |rs| {
          return TrailingBackslash;
        }
        i := i + 1;
        cur, inWord := cur + [rs[i]], true;
      } else if IsSpace(c) {
        if inWord {
          argv, cur, inWord := argv + [cur], "", false;
        }
      } else {
        cur, inWord := cur + [c], true;
      }
      i := i + 1;
    }
    if quote != Unquoted {
      return Unterminated(if quote == Single then '\'' else '"');
    }
    if inWord {
      argv := argv + [cur];
    }
    if |argv| == 0 || argv[0] == "" {
      return EmptyCommand;
    }
    return Words(argv);
  }

  // What a command string means: gaps, and pieces of words each written in one of four ways.

  datatype Lexeme =
    | Gap(c: char)
    | Bare(c: char)
    | Escaped(c: char)
    | InSingle(text: string)
    | InDouble(text: string)
  {
    ghost predicate Valid() {
      match this
      case Gap(c) => IsSpace(c)
      case Bare(c) => !IsSpace(c) && c != '\'' && c != '"' && c != '\\'
      case Escaped(c) => true
      case InSingle(text) => '\'' !in text
      case InDouble(text) => Closed(text)
    }

    function Text(): string {
      match this
      case Gap(c) => [c]
      case Bare(c) => [c]
      case Escaped(c) => ['\\', c]
      case InSingle(text) => ['\''] + text + ['\'']
      case InDouble(text) => ['"'] + text + ['"']
    }

    /** What the piece adds to its word. */
    function Value(): string
      requires !Gap?
    {
      match this
      case Bare(c) => [c]
      case Escaped(c) => [c]
      case InSingle(text) => text
      case InDouble(text) => Unescaped(text)
    }
  }

  /** text, between double quotes, neither ends them early nor escapes the closing one. */
  predicate Closed(text: string) {
    if text == "" then true
    else if EscapesInDouble(text) then Closed(text[2..])
    else text[0] != '"' && text != "\\" && Closed(text[1..])
  }

  function Unescaped(text: string): string {
    if text == "" then ""
    else if EscapesInDouble(text) then [text[1]] + Unescaped(text[2..])
    else [text[0]] + Unescaped(text[1..])
  }

  function Text(lexemes: seq<Lexeme>): string {
    if lexemes == [] then "" else lexemes[0].Text() + Text(lexemes[1..])
  }

  ghost predicate Valid(lexemes: seq<Lexeme>) {
    forall i | 0 <= i < |lexemes| :: lexemes[i].Valid()
  }

  /** The words: each run of pieces between gaps is one. word is the run so far, if any. */
  function WordsFrom(word: seq<string>, lexemes: seq<Lexeme>): seq<string>
    decreases |lexemes|
  {
    if lexemes == [] then word
    else if lexemes[0].Gap? then word + WordsFrom([], lexemes[1..])
    else
      var begun := if word == [] then "" else word[|word| - 1];
      WordsFrom([begun + lexemes[0].Value()], lexemes[1..])
  }

  function WordsOf(lexemes: seq<Lexeme>): seq<string> {
    WordsFrom([], lexemes)
  }

  ghost predicate Means(s: string, argv: seq<string>) {
    exists lexemes :: Valid(lexemes) && Text(lexemes) == s && WordsOf(lexemes) == argv
  }

  // Reading a lexeme.

  function Open(st: Scanner): seq<string> {
    if st.inWord then [st.cur] else []
  }

  lemma {:induction false} ScanSingle(st: Scanner, text: string, rest: string)
    requires st.quote == Single && '\'' !in text
    ensures Scan(st, text + ['\''] + rest) == Scan(st.(cur := st.cur + text, quote := Unquoted), rest)
    decreases |text|
  {
    var s := text + ['\''] + rest;
    if text == "" {
      assert s[1..] == rest && st.cur + text == st.cur;
    } else {
      assert s[1..] == text[1..] + ['\''] + rest;
      ScanSingle(st.(cur := st.cur + [text[0]]), text[1..], rest);
      assert st.cur + [text[0]] + text[1..] == st.cur + text;
    }
  }

  lemma DoubleKeeps(st: Scanner, s: string)
    requires st.quote == Double && s != "" && s[0] != '"' && !EscapesInDouble(s)
    ensures Scan(st, s) == Scan(st.(cur := st.cur + [s[0]]), s[1..])
  {
  }

  lemma DoubleEscapes(st: Scanner, s: string)
    requires st.quote == Double && EscapesInDouble(s)
    ensures Scan(st, s) == Scan(st.(cur := st.cur + [s[1]]), s[2..])
  {
  }

  /** Closed text, one character or escape at a time. */
  lemma ClosedText(text: string, rest: string)
    requires Closed(text) && text != ""
    ensures var s, n := text + ['"'] + rest, if EscapesInDouble(text) then 2 else 1;
            && s[0] != '"' && s[n - 1] == text[n - 1] && s[n..] == text[n..] + ['"'] + rest
            && EscapesInDouble(s) == EscapesInDouble(text)
            && Closed(text[n..]) && Unescaped(text) == [text[n - 1]] + Unescaped(text[n..])
  {
    var s := text + ['"'] + rest;
    assert forall i | 0 <= i < |text| :: s[i] == text[i];
  }

  lemma {:induction false} ScanDouble(st: Scanner, text: string, rest: string)
    requires st.quote == Double && Closed(text)
    ensures Scan(st, text + ['"'] + rest) == Scan(st.(cur := st.cur + Unescaped(text), quote := Unquoted), rest)
    decreases |text|
  {
    var s := text + ['"'] + rest;
    if text == "" {
      assert s[1..] == rest && st.cur + Unescaped(text) == st.cur;
    } else {
      ClosedText(text, rest);
      var n := if EscapesInDouble(text) then 2 else 1;
      if n == 2 {
        DoubleEscapes(st, s);
      } else {
        DoubleKeeps(st, s);
      }
      ScanDouble(st.(cur := st.cur + [text[n - 1]]), text[n..], rest);
      assert st.cur + [text[n - 1]] + Unescaped(text[n..]) == st.cur + Unescaped(text);
    }
  }

  function Read(st: Scanner, l: Lexeme): Scanner {
    if l.Gap? then st.Gap() else st.(cur := st.cur + l.Value(), inWord := true)
  }

  lemma ScanLexeme(st: Scanner, l: Lexeme, rest: string)
    requires st.quote == Unquoted && l.Valid()
    ensures Scan(st, l.Text() + rest) == Scan(Read(st, l), rest)
  {
    var s := l.Text() + rest;
    match l {
      case Gap(c) => assert s[1..] == rest;
      case Bare(c) => assert s[1..] == rest;
      case Escaped(c) => assert s[2..] == rest;
      case InSingle(text) =>
        assert s[1..] == text + ['\''] + rest;
        ScanSingle(st.(quote := Single, inWord := true), text, rest);
      case InDouble(text) =>
        assert s[1..] == text + ['"'] + rest;
        ScanDouble(st.(quote := Double, inWord := true), text, rest);
    }
  }

  lemma ReadWords(st: Scanner, lexemes: seq<Lexeme>)
    requires lexemes != [] && (!st.inWord ==> st.cur == "")
    ensures var st' := Read(st, lexemes[0]);
            st.argv + WordsFrom(Open(st), lexemes) == st'.argv + WordsFrom(Open(st'), lexemes[1..])
  {
    var words := WordsFrom([], lexemes[1..]);
    if lexemes[0].Gap? && st.inWord {
      assert st.argv + ([st.cur] + words) == st.argv + [st.cur] + words;
    } else if lexemes[0].Gap? {
      assert [] + words == words;
    }
  }

  /** Reading lexemes from any point between them adds their words. */
  lemma {:induction false} ScanLexemes(st: Scanner, lexemes: seq<Lexeme>)
    requires st.quote == Unquoted && Valid(lexemes) && (!st.inWord ==> st.cur == "")
    ensures var words := st.argv + WordsFrom(Open(st), lexemes);
            Scan(st, Text(lexemes)) == if words == [] || words[0] == "" then EmptyCommand else Words(words)
    decreases |lexemes|
  {
    if lexemes != [] {
      ScanLexeme(st, lexemes[0], Text(lexemes[1..]));
      ScanLexemes(Read(st, lexemes[0]), lexemes[1..]);
      ReadWords(st, lexemes);
    } else {
      assert st.argv + [] == st.argv;
    }
  }

  // Taking a string apart.

  lemma {:induction false} SingleCloses(st: Scanner, s: string) returns (text: string, rest: string)
    requires st.quote == Single && (Scan(st, s).Words? || Scan(st, s).EmptyCommand?)
    ensures s == text + ['\''] + rest && '\'' !in text
    decreases |s|
  {
    if s[0] == '\'' {
      text, rest := "", s[1..];
    } else {
      text, rest := SingleCloses(st.(cur := st.cur + [s[0]]), s[1..]);
      text := [s[0]] + text;
    }
  }

  lemma {:induction false} DoubleCloses(st: Scanner, s: string) returns (text: string, rest: string)
    requires st.quote == Double && (Scan(st, s).Words? || Scan(st, s).EmptyCommand?)
    ensures s == text + ['"'] + rest && Closed(text)
    decreases |s|
  {
    if s[0] == '"' {
      text, rest := "", s[1..];
    } else if EscapesInDouble(s) {
      text, rest := DoubleCloses(st.(cur := st.cur + [s[1]]), s[2..]);
      var tail := text;
      text := s[..2] + tail;
      assert text[2..] == tail;
    } else {
      text, rest := DoubleCloses(st.(cur := st.cur + [s[0]]), s[1..]);
      var tail := text;
      text := [s[0]] + tail;
      assert text[1..] == tail;
      assert tail == "" ==> s[1] == '"';
      assert tail != "" ==> text[1] == s[1];
    }
  }

  /** A string that does not end inside quotes or in a backslash is a sequence of lexemes. */
  lemma {:induction false} TakesApart(st: Scanner, s: string) returns (lexemes: seq<Lexeme>)
    requires st.quote == Unquoted && (Scan(st, s).Words? || Scan(st, s).EmptyCommand?)
    ensures Valid(lexemes) && Text(lexemes) == s
    decreases |s|
  {
    if s == "" {
      lexemes := [];
    } else {
      var first, rest := Bare(s[0]), s[1..];
      if s[0] == '\'' {
        var text;
        text, rest := SingleCloses(st.(quote := Single, inWord := true), s[1..]);
        first := InSingle(text);
      } else if s[0] == '"' {
        var text;
        text, rest := DoubleCloses(st.(quote := Double, inWord := true), s[1..]);
        first := InDouble(text);
      } else if s[0] == '\\' {
        first, rest := Escaped(s[1]), s[2..];
      } else if IsSpace(s[0]) {
        first := Gap(s[0]);
      }
      assert s == first.Text() + rest;
      ScanLexeme(st, first, rest);
      var tail := TakesApart(Read(st, first), rest);
      lexemes := [first] + tail;
      assert lexemes[1..] == tail;
    }
  }

  /** The splitter answers argv exactly when the string means it and there is a program to run:
      everything else, an unclosed quote, a trailing backslash or an empty first word, it refuses. */
  lemma SplitsExactlyWhatItMeans(s: string, argv: seq<string>)
    ensures Split(s) == Words(argv) <==> Means(s, argv) && argv != [] && argv[0] != ""
  {
    if Split(s) == Words(argv) {
      var lexemes := TakesApart(START, s);
      ScanLexemes(START, lexemes);
      assert [] + WordsOf(lexemes) == WordsOf(lexemes);
    } else if Means(s, argv) && argv != [] && argv[0] != "" {
      var lexemes :| Valid(lexemes) && Text(lexemes) == s && WordsOf(lexemes) == argv;
      assert [] + WordsOf(lexemes) == WordsOf(lexemes);
      ScanLexemes(START, lexemes);
    }
  }
}
