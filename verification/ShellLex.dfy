/**
 The shell's tokens as characters: where gettoken and peek stop, and how a line may be spelled.
 */
module ShellLex {
  import opened ShellSyntax

  const WHITESPACE := " \t\r\n\U{0B}"
  const SYMBOLS := "<|>&;()"

  predicate White(c: char) { c in WHITESPACE }

  predicate WordChar(c: char) { c !in WHITESPACE && c !in SYMBOLS }

  /** Where a word lies in the input. */
  datatype Span = Span(q: int, eq: int)

  // Tokens of a string.

  function Skip(s: string, i: nat): (r: nat)
    requires i <= |s|
    ensures i <= r <= |s| && (forall k :: i <= k < r ==> White(s[k])) && (r < |s| ==> !White(s[r]))
    decreases |s| - i
  {
    if i < |s| && White(s[i]) then Skip(s, i + 1) else i
  }

  function WordEnd(s: string, i: nat): (r: nat)
    requires i <= |s|
    ensures i <= r <= |s| && (forall k :: i <= k < r ==> WordChar(s[k])) && (r < |s| ==> !WordChar(s[r]))
    decreases |s| - i
  {
    if i < |s| && WordChar(s[i]) then WordEnd(s, i + 1) else i
  }

  predicate Append(s: string, q: nat) {
    q + 1 < |s| && s[q] == '>' && s[q + 1] == '>'
  }

  function TokAt(s: string, q: nat): Tok<Span>
    requires q < |s|
  {
    if WordChar(s[q]) then Word(Span(q, WordEnd(s, q))) else Sym(if Append(s, q) then '+' else s[q])
  }

  function EndAt(s: string, q: nat): (r: nat)
    requires q < |s|
    ensures q < r <= |s|
  {
    if WordChar(s[q]) then WordEnd(s, q) else if Append(s, q) then q + 2 else q + 1
  }

  /** The tokens of `s` from position `i` on. */
  function Lex(s: string, i: nat): seq<Tok<Span>>
    requires i <= |s|
    decreases |s| - i
  {
    var q := Skip(s, i);
    if q == |s| then [] else [TokAt(s, q)] + Lex(s, EndAt(s, q))
  }

  lemma LexSkip(s: string, i: nat, j: nat)
    requires i <= |s| && i <= j <= Skip(s, i)
    ensures Skip(s, j) == Skip(s, i) && Lex(s, j) == Lex(s, i)
  {
  }

  // A word's text.

  function TextOf(s: string, w: Span): string {
    if 0 <= w.q <= w.eq <= |s| then s[w.q..w.eq] else ""
  }

  function TextTok(s: string, t: Tok<Span>): Tok<string> {
    match t
    case Sym(c) => Sym(c)
    case Word(w) => Word(TextOf(s, w))
  }

  function Texts(s: string, ts: seq<Tok<Span>>): seq<Tok<string>> {
    if ts == [] then [] else [TextTok(s, ts[0])] + Texts(s, ts[1..])
  }

  function TextWords(s: string, ws: seq<Span>): seq<string> {
    if ws == [] then [] else [TextOf(s, ws[0])] + TextWords(s, ws[1..])
  }

  function TextRed(s: string, r: Redirect<Span>): Redirect<string> {
    Redirect(r.op, TextOf(s, r.file))
  }

  function TextReds(s: string, rs: seq<Redirect<Span>>): seq<Redirect<string>> {
    if rs == [] then [] else [TextRed(s, rs[0])] + TextReds(s, rs[1..])
  }

  /** The command with the text of its words in place of their spans. */
  function TextCmd(s: string, c: Cmd<Span>): Cmd<string> {
    match c
    case Exec(argv) => Exec(TextWords(s, argv))
    case Redir(sub, file, mode, fd) => Redir(TextCmd(s, sub), TextOf(s, file), mode, fd)
    case Pipe(left, right) => Pipe(TextCmd(s, left), TextCmd(s, right))
    case List(left, right) => List(TextCmd(s, left), TextCmd(s, right))
    case Back(sub) => Back(TextCmd(s, sub))
  }

  function TextParse(s: string, r: Parse<Span>): Parse<string> {
    match r
    case Panic => Panic
    case Done(c, rest) => Done(TextCmd(s, c), Texts(s, rest))
  }

  // The parser does not look inside words.

  lemma {:induction false} TextRedsConcat(s: string, a: seq<Redirect<Span>>, b: seq<Redirect<Span>>)
    ensures TextReds(s, a + b) == TextReds(s, a) + TextReds(s, b)
  {
    hide TextRed;
    if a == [] {
      assert a + b == b;
    } else {
      TextRedsConcat(s, a[1..], b);
      var c := a + b;
      assert c[0] == a[0] && c[1..] == a[1..] + b;
      assert TextReds(s, c) == [TextRed(s, a[0])] + (TextReds(s, a[1..]) + TextReds(s, b));
    }
  }

  lemma {:induction false} TextWrap(s: string, c: Cmd<Span>, rs: seq<Redirect<Span>>)
    ensures TextCmd(s, Wrap(c, rs)) == Wrap(TextCmd(s, c), TextReds(s, rs))
    decreases |rs|
  {
    if rs != [] {
      TextWrap(s, Redirected(c, rs[0]), rs[1..]);
      assert TextReds(s, rs)[1..] == TextReds(s, rs[1..]);
    }
  }

  lemma TextHead(s: string, ts: seq<Tok<Span>>)
    requires ts != []
    ensures Texts(s, ts) != [] && Texts(s, ts)[0] == TextTok(s, ts[0]) && Texts(s, ts)[1..] == Texts(s, ts[1..])
  {
  }

  lemma TextPeek(s: string, ts: seq<Tok<Span>>, cs: string)
    ensures Peek(Texts(s, ts), cs) == Peek(ts, cs) && (Texts(s, ts) == [] <==> ts == [])
  {
    if ts != [] {
      TextHead(s, ts);
    }
  }

  lemma {:induction false} TextParseReds(s: string, ts: seq<Tok<Span>>)
    ensures ParseReds(Texts(s, ts)) == match ParseReds(ts)
                                       case BadReds => BadReds
                                       case Reds(rs, rest) => Reds(TextReds(s, rs), Texts(s, rest))
  {
    var us := Texts(s, ts);
    TextPeek(s, ts, "<>");
    if Peek(ts, "<>") {
      TextHead(s, ts);
      TextPeek(s, ts[1..], "");
      if |ts| >= 2 {
        TextHead(s, ts[1..]);
        assert ts[1..][1..] == ts[2..] && us[1..][1..] == us[2..] && us[1..][0] == us[1];
        TextParseReds(s, ts[2..]);
      }
    }
  }

  lemma {:induction false} TextParseArgs(s: string, n: nat, ts: seq<Tok<Span>>)
    ensures ParseArgs(n, Texts(s, ts)) == match ParseArgs(n, ts)
                                          case BadArgs => BadArgs
                                          case Args(ws, rs, rest) =>
                                            Args(TextWords(s, ws), TextReds(s, rs), Texts(s, rest))
    decreases |ts|
  {
    hide ParseReds;
    TextPeek(s, ts, "|)&;");
    if !Peek(ts, "|)&;") && ts != [] {
      TextHead(s, ts);
      TextParseReds(s, ts[1..]);
      var r := ParseReds(ts[1..]);
      if r.Reds? {
        TextParseArgs(s, n + 1, r.rest);
        var a := ParseArgs(n + 1, r.rest);
        if a.Args? {
          TextRedsConcat(s, r.rs, a.rs);
        }
      }
    }
  }

  lemma {:induction false} TextParseAmps(s: string, c: Cmd<Span>, ts: seq<Tok<Span>>)
    ensures ParseAmps(TextCmd(s, c), Texts(s, ts)) == TextParse(s, ParseAmps(c, ts))
    decreases |ts|
  {
    TextPeek(s, ts, "&");
    if Peek(ts, "&") {
      TextHead(s, ts);
      TextParseAmps(s, Back(c), ts[1..]);
    }
  }

  lemma {:induction false} TextParseExec(s: string, ts: seq<Tok<Span>>)
    ensures ParseExec(Texts(s, ts)) == TextParse(s, ParseExec(ts))
    decreases |ts|, 1
  {
    hide ParseReds, ParseArgs, ParseLine, Wrap, Texts;
    TextPeek(s, ts, "(");
    if Peek(ts, "(") {
      TextHead(s, ts);
      TextParseLine(s, ts[1..]);
      var l := ParseLine(ts[1..]);
      if l.Done? {
        TextPeek(s, l.rest, ")");
        if Peek(l.rest, ")") {
          TextHead(s, l.rest);
          TextParseReds(s, l.rest[1..]);
          var r := ParseReds(l.rest[1..]);
          if r.Reds? {
            TextWrap(s, l.cmd, r.rs);
          }
        }
      }
    } else {
      TextParseReds(s, ts);
      var r := ParseReds(ts);
      if r.Reds? {
        TextParseArgs(s, 0, r.rest);
        var a := ParseArgs(0, r.rest);
        if a.Args? {
          TextRedsConcat(s, r.rs, a.rs);
          TextWrap(s, Exec(a.ws), r.rs + a.rs);
        }
      }
    }
  }

  lemma {:induction false} TextParsePipe(s: string, ts: seq<Tok<Span>>)
    ensures ParsePipe(Texts(s, ts)) == TextParse(s, ParsePipe(ts))
    decreases |ts|, 2
  {
    hide ParseExec, Texts;
    TextParseExec(s, ts);
    var r := ParseExec(ts);
    if r.Done? {
      TextPeek(s, r.rest, "|");
      if Peek(r.rest, "|") {
        TextHead(s, r.rest);
        TextParsePipe(s, r.rest[1..]);
      }
    }
  }

  lemma {:induction false} TextParseLine(s: string, ts: seq<Tok<Span>>)
    ensures ParseLine(Texts(s, ts)) == TextParse(s, ParseLine(ts))
    decreases |ts|, 3
  {
    hide ParsePipe, Texts;
    TextParsePipe(s, ts);
    var r := ParsePipe(ts);
    if r.Done? {
      TextParseAmps(s, r.cmd, r.rest);
      var a := ParseAmps(r.cmd, r.rest);
      TextPeek(s, a.rest, ";");
      if Peek(a.rest, ";") {
        TextHead(s, a.rest);
        TextParseLine(s, a.rest[1..]);
      }
    }
  }

  /** The tokens of a command line, by their text. */
  function Words(s: string): seq<Tok<string>> {
    Texts(s, Lex(s, 0))
  }

  /** parsecmd on the characters of a line, by the text of its words. */
  function ParseText(s: string): Parse<string> {
    TextParse(s, ParseAll(Lex(s, 0)))
  }

  lemma ParseTextIs(s: string)
    ensures ParseText(s) == ParseAll(Words(s))
  {
    hide ParseLine, Lex;
    TextParseLine(s, Lex(s, 0));
    var r := ParseLine(Lex(s, 0));
    if r.Done? {
      TextPeek(s, r.rest, "");
    }
  }

  // Writing tokens down, with any white space between them.

  predicate TokOk(t: Tok<string>) {
    match t
    case Sym(c) => c in SYMBOLS || c == '+'
    case Word(w) => w != "" && forall k :: 0 <= k < |w| ==> WordChar(w[k])
  }

  function SpellTok(t: Tok<string>): string {
    match t
    case Sym(c) => if c == '+' then ">>" else [c]
    case Word(w) => w
  }

  /** Tokens that run together when nothing separates them. */
  predicate Sticky(t: Tok<string>, u: Tok<string>) {
    (t.Word? && u.Word?) || (t == Sym('>') && (u == Sym('>') || u == Sym('+')))
  }

  predicate Blank(g: string) {
    forall k :: 0 <= k < |g| ==> White(g[k])
  }

  /** `gaps[i]` stands before token `i`; the last one ends the line. */
  predicate GapsOk(toks: seq<Tok<string>>, gaps: seq<string>) {
    && |gaps| == |toks| + 1
    && (forall i :: 0 <= i < |toks| ==> TokOk(toks[i]))
    && (forall i :: 0 <= i < |gaps| ==> Blank(gaps[i]))
    && (forall i :: 0 < i < |toks| && Sticky(toks[i - 1], toks[i]) ==> gaps[i] != "")
  }

  function Spell(toks: seq<Tok<string>>, gaps: seq<string>): string
    requires |gaps| == |toks| + 1
  {
    if toks == [] then gaps[0] else gaps[0] + SpellTok(toks[0]) + Spell(toks[1..], gaps[1..])
  }

  lemma SkipIs(s: string, i: nat, r: nat)
    requires i <= r <= |s| && (forall k :: i <= k < r ==> White(s[k])) && (r < |s| ==> !White(s[r]))
    ensures Skip(s, i) == r
  {
  }

  lemma WordEndIs(s: string, i: nat, r: nat)
    requires i <= r <= |s| && (forall k :: i <= k < r ==> WordChar(s[k])) && (r < |s| ==> !WordChar(s[r]))
    ensures WordEnd(s, i) == r
  {
  }

  /** What follows token `t` does not run into it. */
  ghost predicate Apart(t: Tok<string>, tail: string) {
    tail != "" ==> (t.Word? ==> !WordChar(tail[0])) && (t == Sym('>') ==> tail[0] != '>')
  }

  lemma SpellStart(t: Tok<string>, toks: seq<Tok<string>>, gaps: seq<string>)
    requires GapsOk(toks, gaps) && TokOk(t)
    requires toks != [] && Sticky(t, toks[0]) ==> gaps[0] != ""
    ensures Apart(t, Spell(toks, gaps))
  {
    var tail := Spell(toks, gaps);
    if gaps[0] != "" {
      assert tail[0] == gaps[0][0];
      assert White(gaps[0][0]);
    } else if toks != [] {
      assert tail[0] == SpellTok(toks[0])[0];
    }
  }

  /** Character by character: from `i` blanks up to `q`, then token `t`, then `tail`. */
  ghost predicate Reads(s: string, i: nat, q: nat, t: Tok<string>, tail: string) {
    var r := q + |SpellTok(t)|;
    && i <= q <= r <= |s| == r + |tail|
    && (forall k :: i <= k < q ==> White(s[k]))
    && (forall k :: q <= k < r ==> s[k] == SpellTok(t)[k - q])
    && (tail != "" ==> s[r] == tail[0])
  }

  lemma LexAt(s: string, i: nat, q: nat, t: Tok<string>, tail: string)
    requires Reads(s, i, q, t, tail) && TokOk(t) && Apart(t, tail)
    ensures Skip(s, i) == q && q < |s| && TextTok(s, TokAt(s, q)) == t && EndAt(s, q) == q + |SpellTok(t)|
  {
    hide White, WordChar, Skip, WordEnd;
    var c := SpellTok(t)[0];
    assert s[q] == c;
    CharClasses(c);
    SkipIs(s, i, q);
    if t.Word? {
      WordEndIs(s, q, q + |t.w|);
      assert s[q..q + |t.w|] == t.w;
    } else if t.c == '+' {
      assert s[q + 1] == SpellTok(t)[1];
    }
  }

  lemma CharClasses(c: char)
    ensures c in SYMBOLS ==> !White(c) && !WordChar(c)
    ensures WordChar(c) ==> !White(c)
  {
  }

  /** One token and what precedes it. */
  lemma LexOne(p: string, g: string, t: Tok<string>, tail: string)
    requires Blank(g) && TokOk(t) && Apart(t, tail)
    ensures var s := p + g + SpellTok(t) + tail; var q := |p + g|;
            Skip(s, |p|) == q && q < |s| && TextTok(s, TokAt(s, q)) == t && EndAt(s, q) == q + |SpellTok(t)|
  {
    hide TokOk, Apart, White, SpellTok, TokAt, EndAt, Skip;
    var s, q := p + g + SpellTok(t) + tail, |p + g|;
    assert Reads(s, |p|, q, t, tail);
    LexAt(s, |p|, q, t, tail);
  }

  lemma GapsTail(toks: seq<Tok<string>>, gaps: seq<string>)
    requires GapsOk(toks, gaps) && toks != []
    ensures |gaps| == |toks| + 1 && TokOk(toks[0]) && Blank(gaps[0]) && GapsOk(toks[1..], gaps[1..])
    ensures Apart(toks[0], Spell(toks[1..], gaps[1..]))
  {
    hide Spell, TokOk, Blank;
    assert forall i :: 0 < i < |toks[1..]| ==> toks[1..][i - 1] == toks[i] && toks[1..][i] == toks[i + 1];
    SpellStart(toks[0], toks[1..], gaps[1..]);
  }

  lemma {:induction false} LexSpelled(p: string, toks: seq<Tok<string>>, gaps: seq<string>)
    requires GapsOk(toks, gaps)
    ensures |gaps| == |toks| + 1
    ensures var s := p + Spell(toks, gaps); Texts(s, Lex(s, |p|)) == toks
    decreases |toks|
  {
    hide GapsOk, TokAt, EndAt, TokOk, Apart, SpellTok, Skip, TextTok, Blank;
    assert |gaps| == |toks| + 1 && Blank(gaps[0]) by { GapsFirst(toks, gaps); }
    var s := p + Spell(toks, gaps);
    if toks == [] {
      BlankEnd(p, gaps[0]);
    } else {
      var tail := Spell(toks[1..], gaps[1..]);
      GapsTail(toks, gaps);
      LexOne(p, gaps[0], toks[0], tail);
      var p' := p + gaps[0] + SpellTok(toks[0]);
      assert s == p' + tail;
      LexSpelled(p', toks[1..], gaps[1..]);
      var q := Skip(s, |p|);
      assert Lex(s, |p|) == [TokAt(s, q)] + Lex(s, |p'|);
      assert toks == [toks[0]] + toks[1..];
    }
  }

  lemma GapsFirst(toks: seq<Tok<string>>, gaps: seq<string>)
    requires GapsOk(toks, gaps)
    ensures |gaps| == |toks| + 1 && Blank(gaps[0])
  {
  }

  lemma BlankEnd(p: string, g: string)
    requires Blank(g)
    ensures Skip(p + g, |p|) == |p + g|
  {
    SkipIs(p + g, |p|, |p + g|);
  }

  /** However a token list is spaced out, gettoken reads it back. */
  lemma SpellThenLex(toks: seq<Tok<string>>, gaps: seq<string>)
    requires GapsOk(toks, gaps)
    ensures Words(Spell(toks, gaps)) == toks
  {
    LexSpelled("", toks, gaps);
    assert "" + Spell(toks, gaps) == Spell(toks, gaps);
  }

  /** A command printed with any white space parses to that command. */
  lemma PrintThenParseText(c: Cmd<string>, gaps: seq<string>)
    requires Writable(c) && GapsOk(FlatLine(Printed(c)), gaps)
    ensures ParseText(Spell(FlatLine(Printed(c)), gaps)) == Done(c, [])
  {
    hide Printed, FlatLine, Spell, Writable, ParseAll, ParseText, Words;
    var ts := FlatLine(Printed(c));
    SpellThenLex(ts, gaps);
    ParseTextIs(Spell(ts, gaps));
    PrintThenParse(c);
  }

  /** parsecmd accepts a string as `c` exactly when its tokens are a line that means `c`. */
  lemma TextGrammarExact(s: string, c: Cmd<string>)
    ensures ParseText(s) == Done(c, []) <==> exists l :: Derives(l, Words(s), c)
  {
    hide ParseAll, ParseText, Words, Derives;
    ParseTextIs(s);
    GrammarExact(Words(s), c);
  }
}
