/** The declarations detect prints, and what a shell and the splitter make of them. */
module Declaring {
  import opened Options
  import opened Splitting

  const HEX := "0123456789abcdef"

  /** n in hexadecimal, exactly digits digits. */
  function Hex(n: nat, digits: nat): string {
    if digits == 0 then "" else Hex(n / 16, digits - 1) + [HEX[n % 16]]
  }

  /** How a quoted string spells a character that is not printable. */
  function Spelled(c: char): string {
    match c
    case '\U{07}' => "\\a"
    case '\U{08}' => "\\b"
    case '\U{0C}' => "\\f"
    case '\n' => "\\n"
    case '\r' => "\\r"
    case '\t' => "\\t"
    case '\U{0B}' => "\\v"
    case _ =>
      if c < ' ' || c == '\U{7F}' then "\\x" + Hex(c as int, 2)
      else if c as int < 0x10000 then "\\u" + Hex(c as int, 4)
      else "\\U" + Hex(c as int, 8)
  }

  function EscapedChar(isPrint: char -> bool, c: char): string {
    if c == '"' || c == '\\' then ['\\', c] else if isPrint(c) then [c] else Spelled(c)
  }

  function EscapedText(isPrint: char -> bool, s: string): string {
    if s == "" then "" else EscapedChar(isPrint, s[0]) + EscapedText(isPrint, s[1..])
  }

  function Quoted(isPrint: char -> bool, s: string): string {
    ['"'] + EscapedText(isPrint, s) + ['"']
  }

  function Join(words: seq<string>, sep: string): string {
    if words == [] then ""
    else if |words| == 1 then words[0]
    else words[0] + sep + Join(words[1..], sep)
  }

  /** One --declare-screen candidate; no table stands for the standard one. */
  datatype ScreenDecl = ScreenDecl(name: string, input: string, table: string) {
    function Words(isPrint: char -> bool): seq<string> {
      [Quoted(isPrint, name), input] + Rest()
    }

    function Rest(): seq<string> {
      if table != "" then [table] else []
    }
  }

  // The inner layer: the splitter.

  /** A word the splitter takes as it is. */
  ghost predicate Plain(w: string) {
    w != "" && forall c | c in w :: Bare(c).Valid()
  }

  function Bares(w: string): seq<Lexeme> {
    seq(|w|, i requires 0 <= i < |w| => Bare(w[i]))
  }

  lemma {:induction false} BaresText(w: string)
    ensures Text(Bares(w)) == w
  {
    if w != "" {
      BaresText(w[1..]);
      assert Bares(w)[1..] == Bares(w[1..]);
      assert w == [w[0]] + w[1..];
    }
  }

  lemma Associates(a: string, b: string, c: string)
    ensures a + (b + c) == a + b + c
  {
  }

  lemma TextOf(l: Lexeme, ls: seq<Lexeme>)
    ensures Text([l] + ls) == l.Text() + Text(ls)
  {
    assert ([l] + ls)[1..] == ls;
  }

  lemma {:induction false} TextConcat(a: seq<Lexeme>, b: seq<Lexeme>)
    ensures Text(a + b) == Text(a) + Text(b)
  {
    if a == [] {
      assert a + b == b;
    } else {
      var l, rest := a[0], a[1..];
      assert a == [l] + rest && a + b == [l] + (rest + b);
      TextConcat(rest, b);
      TextOf(l, rest);
      TextOf(l, rest + b);
      Associates(l.Text(), Text(rest), Text(b));
    }
  }

  lemma {:induction false} BaresWord(begun: string, w: string, rest: seq<Lexeme>)
    ensures WordsFrom([begun], Bares(w) + rest) == WordsFrom([begun + w], rest)
    decreases |w|
  {
    if w == "" {
      assert Bares(w) + rest == rest && begun + w == begun;
    } else {
      var ls := Bares(w) + rest;
      assert ls[0] == Bare(w[0]) && ls[1..] == Bares(w[1..]) + rest;
      BaresWord(begun + [w[0]], w[1..], rest);
      assert begun + [w[0]] + w[1..] == begun + w;
    }
  }

  /** The lexemes of plain words, each after a gap. */
  function GapBares(words: seq<string>): seq<Lexeme> {
    if words == [] then [] else [Gap(' ')] + Bares(words[0]) + GapBares(words[1..])
  }

  ghost predicate AllPlain(words: seq<string>) {
    forall i | 0 <= i < |words| :: Plain(words[i])
  }

  lemma GapThenWord(first: string, w: string, ls: seq<Lexeme>)
    requires w != ""
    ensures WordsFrom([first], [Gap(' ')] + Bares(w) + ls) == [first] + WordsFrom([w], ls)
  {
    var all := [Gap(' ')] + Bares(w) + ls;
    assert all[1..] == Bares(w) + ls;
    var after := all[1..];
    assert after[0] == Bare(w[0]) && after[1..] == Bares(w[1..]) + ls;
    BaresWord([w[0]], w[1..], ls);
    assert [w[0]] + w[1..] == w && "" + [w[0]] == [w[0]];
  }

  lemma GapText(w: string, ls: seq<Lexeme>)
    ensures Text([Gap(' ')] + Bares(w) + ls) == " " + (w + Text(ls))
  {
    var all := [Gap(' ')] + Bares(w) + ls;
    assert all[0] == Gap(' ') && all[1..] == Bares(w) + ls;
    BaresText(w);
    TextConcat(Bares(w), ls);
  }

  lemma {:induction false} GapBaresText(first: string, words: seq<string>)
    ensures first + Text(GapBares(words)) == Join([first] + words, " ")
    decreases |words|
  {
    var all := [first] + words;
    if words == [] {
      assert all[0] + "" == Join(all, " ");
    } else {
      var tail := Text(GapBares(words[1..]));
      GapBaresText(words[0], words[1..]);
      assert [words[0]] + words[1..] == words && all[1..] == words;
      GapText(words[0], GapBares(words[1..]));
      Associates(first, " ", words[0] + tail);
    }
  }

  lemma {:induction false} GapBaresWords(first: string, words: seq<string>)
    requires AllPlain(words)
    ensures WordsFrom([first], GapBares(words)) == [first] + words
    decreases |words|
  {
    if words != [] {
      assert Plain(words[0]);
      GapThenWord(first, words[0], GapBares(words[1..]));
      GapBaresWords(words[0], words[1..]);
      assert [words[0]] + words[1..] == words;
    }
  }

  lemma {:induction false} GapBaresValid(words: seq<string>)
    requires AllPlain(words)
    ensures Valid(GapBares(words))
    decreases |words|
  {
    if words != [] {
      assert Plain(words[0]);
      GapBaresValid(words[1..]);
    }
  }

  /** What the splitter reads back of a quoted name: each character that is not printable comes
      back spelled out. */
  function Shown(isPrint: char -> bool, s: string): string {
    if s == "" then "" else ShownChar(isPrint, s[0]) + Shown(isPrint, s[1..])
  }

  function ShownChar(isPrint: char -> bool, c: char): string {
    if ShownAsItIs(isPrint, c) then [c] else Spelled(c)
  }

  predicate ShownAsItIs(isPrint: char -> bool, c: char) {
    c == '"' || c == '\\' || isPrint(c)
  }

  lemma {:induction false} HexFacts(n: nat, digits: nat)
    ensures |Hex(n, digits)| == digits && forall c | c in Hex(n, digits) :: c in HEX
  {
    if digits > 0 {
      HexFacts(n / 16, digits - 1);
    }
  }

  lemma SpelledFacts(c: char)
    ensures var s := Spelled(c);
            && |s| >= 2 && s[0] == '\\' && forall i | 1 <= i < |s| :: s[i] != '"' && s[i] != '\\'
  {
    HexFacts(c as int, 2);
    HexFacts(c as int, 4);
    HexFacts(c as int, 8);
    assert '"' !in HEX && '\\' !in HEX;
  }

  lemma KeptChar(c: char, rest: string)
    requires c != '"' && c != '\\'
    ensures Closed([c] + rest) == Closed(rest) && Unescaped([c] + rest) == [c] + Unescaped(rest)
  {
    assert ([c] + rest)[1..] == rest;
  }

  lemma {:induction false} KeptText(kept: string, rest: string)
    requires forall i | 0 <= i < |kept| :: kept[i] != '"' && kept[i] != '\\'
    ensures Closed(kept + rest) == Closed(rest) && Unescaped(kept + rest) == kept + Unescaped(rest)
    decreases |kept|
  {
    if kept == "" {
      assert kept + rest == rest;
    } else {
      assert kept == [kept[0]] + kept[1..];
      Associates([kept[0]], kept[1..], rest);
      Associates([kept[0]], kept[1..], Unescaped(rest));
      KeptText(kept[1..], rest);
      KeptChar(kept[0], kept[1..] + rest);
    }
  }

  lemma SpelledText(c: char, rest: string)
    requires Closed(rest)
    ensures Closed(Spelled(c) + rest) && Unescaped(Spelled(c) + rest) == Spelled(c) + Unescaped(rest)
  {
    SpelledFacts(c);
    var s := Spelled(c);
    var text := s + rest;
    assert text[1] == s[1] && text[1..] == s[1..] + rest;
    KeptText(s[1..], rest);
    assert [s[0]] + s[1..] == s;
  }

  lemma {:induction false} EscapedTextFacts(isPrint: char -> bool, s: string)
    ensures Closed(EscapedText(isPrint, s)) && Unescaped(EscapedText(isPrint, s)) == Shown(isPrint, s)
  {
    if s != "" {
      var c, rest := s[0], EscapedText(isPrint, s[1..]);
      EscapedTextFacts(isPrint, s[1..]);
      var text := EscapedChar(isPrint, c) + rest;
      if c == '"' || c == '\\' {
        assert text[2..] == rest && text[1] == c;
      } else if isPrint(c) {
        KeptText([c], rest);
      } else {
        SpelledText(c, rest);
      }
    }
  }

  /** A name comes back as it is exactly when each of its characters is shown as it is. */
  lemma {:induction false} ShownFacts(isPrint: char -> bool, s: string)
    ensures |Shown(isPrint, s)| >= |s|
    ensures Shown(isPrint, s) == s <==> forall i | 0 <= i < |s| :: ShownAsItIs(isPrint, s[i])
  {
    if s != "" {
      var c, rest, shown := s[0], s[1..], Shown(isPrint, s[1..]);
      ShownFacts(isPrint, rest);
      assert s == [c] + rest;
      if ShownAsItIs(isPrint, c) {
        assert ([c] + shown)[1..] == shown;
        assert forall i | 1 <= i < |s| :: s[i] == rest[i - 1];
      } else {
        SpelledFacts(c);
        assert |Spelled(c) + shown| > |s|;
      }
    }
  }

  /** A quoted word, then plain ones: what the splitter makes of them. */
  lemma QuotedThenPlain(text: string, tail: seq<string>)
    requires Closed(text) && AllPlain(tail)
    ensures Split(Join([['"'] + text + ['"']] + tail, " "))
         == if Unescaped(text) == "" then EmptyCommand else Argv.Words([Unescaped(text)] + tail)
  {
    var lexemes := [InDouble(text)] + GapBares(tail);
    assert lexemes[1..] == GapBares(tail);
    GapBaresText(['"'] + text + ['"'], tail);
    GapBaresValid(tail);
    GapBaresWords(Unescaped(text), tail);
    ScanLexemes(Splitting.START, lexemes);
    assert "" + Unescaped(text) == Unescaped(text);
    assert [] + WordsOf(lexemes) == [Unescaped(text)] + tail;
  }

  /** What the splitter makes of a printed screen declaration. */
  lemma DeclarationSplits(isPrint: char -> bool, d: ScreenDecl)
    requires Plain(d.input) && AllPlain(d.Rest())
    ensures Split(Join(d.Words(isPrint), " "))
         == if d.name == "" then EmptyCommand else Argv.Words([Shown(isPrint, d.name), d.input] + d.Rest())
  {
    var shown, tail := Shown(isPrint, d.name), [d.input] + d.Rest();
    EscapedTextFacts(isPrint, d.name);
    ShownFacts(isPrint, d.name);
    QuotedThenPlain(EscapedText(isPrint, d.name), tail);
    assert [Quoted(isPrint, d.name)] + tail == d.Words(isPrint);
    assert [shown] + tail == [shown, d.input] + d.Rest();
  }

  /** Splitting a printed declaration gives back exactly its name, input and table, if and only
      if the name is not empty and holds no character that quoting spells out. */
  lemma DeclarationRoundTrip(isPrint: char -> bool, d: ScreenDecl)
    requires Plain(d.input) && AllPlain(d.Rest())
    ensures Split(Join(d.Words(isPrint), " ")) == Argv.Words([d.name, d.input] + d.Rest())
      <==> d.name != "" && forall i | 0 <= i < |d.name| :: ShownAsItIs(isPrint, d.name[i])
  {
    DeclarationSplits(isPrint, d);
    ShownFacts(isPrint, d.name);
    var shown, named := [Shown(isPrint, d.name), d.input] + d.Rest(), [d.name, d.input] + d.Rest();
    assert shown[0] == Shown(isPrint, d.name) && named[0] == d.name;
  }

  lemma FirstBares(w: string, ls: seq<Lexeme>)
    requires w != ""
    ensures WordsOf(Bares(w) + ls) == WordsFrom([w], ls)
  {
    var lexemes := Bares(w) + ls;
    assert lexemes[0] == Bare(w[0]) && lexemes[1..] == Bares(w[1..]) + ls;
    BaresWord([w[0]], w[1..], ls);
    assert [w[0]] + w[1..] == w && "" + [w[0]] == [w[0]];
  }

  lemma BaresThenValid(w: string, ls: seq<Lexeme>)
    requires Plain(w) && Valid(ls)
    ensures Valid(Bares(w) + ls)
  {
  }

  /** Plain words, as a device declaration is made of, split back into themselves. */
  lemma PlainWordsSplit(words: seq<string>)
    requires words != [] && AllPlain(words)
    ensures Split(Join(words, " ")) == Argv.Words(words)
  {
    var first, tail := words[0], words[1..];
    var lexemes := Bares(first) + GapBares(tail);
    assert [first] + tail == words;
    GapBaresText(first, tail);
    GapBaresWords(first, tail);
    GapBaresValid(tail);
    BaresText(first);
    TextConcat(Bares(first), GapBares(tail));
    FirstBares(first, GapBares(tail));
    BaresThenValid(first, GapBares(tail));
    ScanLexemes(Splitting.START, lexemes);
    assert [] + WordsOf(lexemes) == words;
  }

  // The outer layer: the shell, as far as backslashes and single quotes go.

  const SHELL_SPECIAL := "|&;<>()$`\\\"' \t\n*?[#~=%"

  /** A character the shell takes as it is outside quotes. */
  predicate ShellPlain(c: char) {
    c !in SHELL_SPECIAL
  }

  /** The fields of a command line that uses no quoting but backslashes and single quotes, by
      sections 2.2.1 and 2.2.2 of the POSIX.1-2017 Shell Command Language; None when it uses
      anything else. word is the field begun, if any. */
  function FieldsFrom(fields: seq<string>, word: Option<string>, quoted: bool, s: string): Option<seq<string>>
    decreases |s|
  {
    var begun := if word.None? then "" else word.value;
    var over := if word.None? then fields else fields + [word.value];
    if s == "" then if quoted then None else Some(over)
    else if quoted then
      if s[0] == '\'' then FieldsFrom(fields, word, false, s[1..])
      else FieldsFrom(fields, Some(begun + [s[0]]), true, s[1..])
    else if s[0] == '\'' then FieldsFrom(fields, Some(begun), true, s[1..])
    else if s[0] == '\\' then
      if |s| == 1 then None
      else if s[1] == '\n' then FieldsFrom(fields, word, false, s[2..])
      else FieldsFrom(fields, Some(begun + [s[1]]), false, s[2..])
    else if s[0] == ' ' || s[0] == '\t' then FieldsFrom(over, None, false, s[1..])
    else if ShellPlain(s[0]) then FieldsFrom(fields, Some(begun + [s[0]]), false, s[1..])
    else None
  }

  function ShellFields(s: string): Option<seq<string>> {
    FieldsFrom([], None, false, s)
  }

  /** Every ' closed, escaped and reopened. */
  function Requoted(v: string): string {
    if v == "" then "" else (if v[0] == '\'' then "'\\''" else [v[0]]) + Requoted(v[1..])
  }

  function DeclFlag(flag: string, words: seq<string>): string {
    "--" + flag + " '" + Requoted(Join(words, " ")) + "'"
  }

  datatype Flag = Flag(name: string, words: seq<string>) {
    ghost predicate Valid() {
      forall c | c in name :: ShellPlain(c)
    }

    function Text(): string {
      DeclFlag(name, words)
    }

    function Fields(): seq<string> {
      ["--" + name, Join(words, " ")]
    }
  }

  const CONTINUATION := " \\\n  "

  function Texts(flags: seq<Flag>): seq<string> {
    seq(|flags|, i requires 0 <= i < |flags| => flags[i].Text())
  }

  function FieldsOf(flags: seq<Flag>): seq<string> {
    if flags == [] then [] else flags[0].Fields() + FieldsOf(flags[1..])
  }

  lemma {:induction false} PlainField(fields: seq<string>, begun: string, w: string, rest: string)
    requires forall c | c in w :: ShellPlain(c)
    ensures FieldsFrom(fields, Some(begun), false, w + rest) == FieldsFrom(fields, Some(begun + w), false, rest)
    decreases |w|
  {
    var s := w + rest;
    if w == "" {
      assert s == rest && begun + w == begun;
    } else {
      assert w[0] in w && s[0] == w[0] && s[1..] == w[1..] + rest;
      forall c | c in w[1..]
        ensures c in w
      {
      }
      PlainField(fields, begun + [w[0]], w[1..], rest);
      assert begun + [w[0]] + w[1..] == begun + w;
    }
  }

  /** A quote inside the value: closed, escaped, reopened, it is one character of the field. */
  lemma QuoteInField(fields: seq<string>, begun: string, rest: string)
    ensures FieldsFrom(fields, Some(begun), true, "'\\''" + rest) == FieldsFrom(fields, Some(begun + "'"), true, rest)
  {
    var s := "'\\''" + rest;
    assert s[1..][2..] == s[3..] && s[3..][1..] == rest;
    assert s[1..][0] == '\\' && s[1..][1] == '\'' && s[3] == '\'';
    assert FieldsFrom(fields, Some(begun), true, s) == FieldsFrom(fields, Some(begun), false, s[1..]);
    assert FieldsFrom(fields, Some(begun), false, s[1..]) == FieldsFrom(fields, Some(begun + ['\'']), false, s[3..]);
  }

  lemma {:induction false} RequotedField(fields: seq<string>, begun: string, v: string, rest: string)
    ensures FieldsFrom(fields, Some(begun), true, Requoted(v) + (['\''] + rest))
         == FieldsFrom(fields, Some(begun + v), false, rest)
    decreases |v|
  {
    var tail := ['\''] + rest;
    if v == "" {
      assert (Requoted(v) + tail)[1..] == rest && begun + v == begun;
    } else {
      var s := Requoted(v[1..]) + tail;
      RequotedField(fields, begun + [v[0]], v[1..], rest);
      assert begun + [v[0]] + v[1..] == begun + v;
      if v[0] == '\'' {
        Associates("'\\''", Requoted(v[1..]), tail);
        QuoteInField(fields, begun, s);
      } else {
        Associates([v[0]], Requoted(v[1..]), tail);
        assert ([v[0]] + s)[1..] == s;
      }
    }
  }

  /** A flag is two fields, whatever its value holds. */
  lemma FlagFields(fields: seq<string>, f: Flag, rest: string)
    requires f.Valid()
    ensures FieldsFrom(fields, None, false, f.Text() + rest)
         == FieldsFrom(fields + ["--" + f.name], Some(Join(f.words, " ")), false, rest)
  {
    var name, v := "--" + f.name, Join(f.words, " ");
    var quoted := Requoted(v) + (['\''] + rest);
    var s := f.Text() + rest;
    assert s == name + (" '" + quoted);
    assert s[0] == '-' && s[1..] == name[1..] + (" '" + quoted);
    PlainField(fields, "-", name[1..], " '" + quoted);
    assert "" + ['-'] == "-" && "-" + name[1..] == name;
    var after := " '" + quoted;
    assert after[1..] == ['\''] + quoted && (['\''] + quoted)[1..] == quoted;
    RequotedField(fields + [name], "", v, rest);
    assert "" + v == v;
  }

  lemma ContinuedFields(fields: seq<string>, word: string, rest: string)
    ensures FieldsFrom(fields, Some(word), false, CONTINUATION + rest) == FieldsFrom(fields + [word], None, false, rest)
  {
    var s := CONTINUATION + rest;
    assert s[1..][2..] == s[3..] && s[3..][1..] == s[4..] && s[4..][1..] == rest;
    assert FieldsFrom(fields, Some(word), false, s) == FieldsFrom(fields + [word], None, false, s[1..]);
    assert FieldsFrom(fields + [word], None, false, s[1..]) == FieldsFrom(fields + [word], None, false, s[3..]);
    assert FieldsFrom(fields + [word], None, false, s[3..]) == FieldsFrom(fields + [word], None, false, s[4..]);
  }

  lemma FirstLine(fields: seq<string>, f: Flag, rest: string)
    requires f.Valid()
    ensures FieldsFrom(fields, None, false, f.Text() + CONTINUATION + rest)
         == FieldsFrom(fields + f.Fields(), None, false, rest)
  {
    Associates(f.Text(), CONTINUATION, rest);
    FlagFields(fields, f, CONTINUATION + rest);
    ContinuedFields(fields + ["--" + f.name], Join(f.words, " "), rest);
    assert fields + ["--" + f.name] + [Join(f.words, " ")] == fields + f.Fields();
  }

  lemma LastLine(fields: seq<string>, f: Flag)
    requires f.Valid()
    ensures FieldsFrom(fields, None, false, f.Text()) == Some(fields + f.Fields())
  {
    FlagFields(fields, f, "");
    assert f.Text() + "" == f.Text();
    assert fields + ["--" + f.name] + [Join(f.words, " ")] == fields + f.Fields();
  }

  /** A command line of flags, one to a continued line, is read as printed: each flag's name and
      its value whole. */
  lemma {:induction false} LineFields(fields: seq<string>, flags: seq<Flag>)
    requires forall i | 0 <= i < |flags| :: flags[i].Valid()
    ensures FieldsFrom(fields, None, false, Join(Texts(flags), CONTINUATION)) == Some(fields + FieldsOf(flags))
    decreases |flags|
  {
    if flags == [] {
      assert fields + FieldsOf(flags) == fields;
    } else {
      var f, tail := flags[0], flags[1..];
      assert fields + f.Fields() + FieldsOf(tail) == fields + (f.Fields() + FieldsOf(tail));
      assert Texts(flags)[1..] == Texts(tail);
      if tail == [] {
        LastLine(fields, f);
        assert FieldsOf(flags) == f.Fields() + [] && f.Fields() + [] == f.Fields();
      } else {
        FirstLine(fields, f, Join(Texts(tail), CONTINUATION));
        LineFields(fields + f.Fields(), tail);
      }
    }
  }

  /** The shell reads one printed flag as its name and one value, whatever the value holds. */
  lemma FlagIsTwoFields(f: Flag)
    requires f.Valid()
    ensures ShellFields(f.Text()) == Some(["--" + f.name, Join(f.words, " ")])
  {
    LastLine([], f);
    assert [] + f.Fields() == f.Fields();
  }

  lemma TabIsShownSpelled(isPrint: char -> bool)
    requires isPrint('a') && isPrint('b') && !isPrint('\t')
    ensures Shown(isPrint, "a\tb") == "a\\tb"
  {
    var name, rest, last := "a\tb", "\tb", "b";
    assert name[1..] == rest && rest[1..] == last && last[1..] == "";
    assert Shown(isPrint, last) == "b";
    assert Shown(isPrint, rest) == "\\t" + "b";
    assert Shown(isPrint, name) == "a" + ("\\t" + "b");
  }

  /** What spelling out looks like: a tab in a name comes back as a backslash and a t. */
  lemma TabComesBackSpelled(isPrint: char -> bool, d: ScreenDecl)
    requires Plain(d.input) && AllPlain(d.Rest()) && d.name == "a\tb"
    requires isPrint('a') && isPrint('b') && !isPrint('\t')
    ensures Split(Join(d.Words(isPrint), " ")) == Argv.Words(["a\\tb", d.input] + d.Rest())
  {
    DeclarationSplits(isPrint, d);
    TabIsShownSpelled(isPrint);
  }

  lemma LetterIsPlain(c: char)
    requires 'a' <= c <= 'z' || c == '-'
    ensures ShellPlain(c)
  {
    assert forall i | 0 <= i < |SHELL_SPECIAL| :: SHELL_SPECIAL[i] != c;
  }

  /** Both layers of a screen declaration: the shell reads the printed flag as its name and one
      value, and that value splits into exactly the declaration's name, input and table, if and
      only if the name is not empty and quoting spells none of its characters out. */
  lemma TwoLayerRoundTrip(isPrint: char -> bool, d: ScreenDecl)
    requires Plain(d.input) && AllPlain(d.Rest())
    ensures var value := Join(d.Words(isPrint), " ");
            && ShellFields(DeclFlag("declare-screen", d.Words(isPrint))) == Some(["--" + "declare-screen", value])
            && (Split(value) == Argv.Words([d.name, d.input] + d.Rest())
                <==> d.name != "" && forall i | 0 <= i < |d.name| :: ShownAsItIs(isPrint, d.name[i]))
  {
    var flag := "declare-screen";
    forall c | c in flag
      ensures ShellPlain(c)
    {
      LetterIsPlain(c);
    }
    FlagIsTwoFields(Flag("declare-screen", d.Words(isPrint)));
    DeclarationRoundTrip(isPrint, d);
  }
}
