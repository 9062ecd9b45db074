/**
 The shell's command language, sh.c: the recursive-descent parser as functions on tokens, the
 grammar it recognises, and the proof that the two agree exactly.

 A word is a `W`: the span of a token in the input, or its text.
 */
module ShellSyntax {

  const MAXARGS := 10
  const O_RDONLY := 0x000
  const O_WRONLY_CREATE := 0x201

  /** A symbol (with '+' for >>) or a word. */
  datatype Tok<W> = Sym(c: char) | Word(w: W)

  datatype Cmd<W> =
    | Exec(argv: seq<W>)
    | Redir(cmd: Cmd<W>, file: W, mode: int, fd: int)
    | Pipe(left: Cmd<W>, right: Cmd<W>)
    | List(left: Cmd<W>, right: Cmd<W>)
    | Back(cmd: Cmd<W>)

  datatype Redirect<W> = Redirect(op: char, file: W)

  /** parseredirs' switch: < opens for reading, > and >> alike for writing. */
  function Redirected<W>(c: Cmd<W>, r: Redirect<W>): Cmd<W> {
    if r.op == '<' then Redir(c, r.file, O_RDONLY, 0) else Redir(c, r.file, O_WRONLY_CREATE, 1)
  }

  function Wrap<W>(c: Cmd<W>, rs: seq<Redirect<W>>): Cmd<W>
    decreases |rs|
  {
    if rs == [] then c else Wrap(Redirected(c, rs[0]), rs[1..])
  }

  // The parser.

  predicate Peek<W>(ts: seq<Tok<W>>, cs: string) {
    ts != [] && ts[0].Sym? && (if ts[0].c == '+' then '>' else ts[0].c) in cs
  }

  datatype Reds<W> = BadReds | Reds(rs: seq<Redirect<W>>, rest: seq<Tok<W>>)
  datatype Args<W> = BadArgs | Args(ws: seq<W>, rs: seq<Redirect<W>>, rest: seq<Tok<W>>)
  datatype Parse<W> = Panic | Done(cmd: Cmd<W>, rest: seq<Tok<W>>)

  /** parseredirs. */
  function ParseReds<W>(ts: seq<Tok<W>>): (r: Reds<W>)
    ensures r.Reds? ==> |r.rest| <= |ts|
  {
    if !Peek(ts, "<>") then Reds([], ts)
    else if |ts| < 2 || !ts[1].Word? then BadReds
    else
      match ParseReds(ts[2..])
      case BadReds => BadReds
      case Reds(rs, rest) => Reds([Redirect(ts[0].c, ts[1].w)] + rs, rest)
  }

  /** parseexec's loop, with `n` words already taken. */
  function ParseArgs<W>(n: nat, ts: seq<Tok<W>>): (r: Args<W>)
    ensures r.Args? ==> |r.rest| <= |ts|
    decreases |ts|
  {
    if Peek(ts, "|)&;") || ts == [] then Args([], [], ts)
    else if !ts[0].Word? || n + 1 >= MAXARGS then BadArgs
    else
      match ParseReds(ts[1..])
      case BadReds => BadArgs
      case Reds(rs, rest) =>
        match ParseArgs(n + 1, rest)
        case BadArgs => BadArgs
        case Args(ws, rs', rest') => Args([ts[0].w] + ws, rs + rs', rest')
  }

  /** parseline's loop. */
  function ParseAmps<W>(c: Cmd<W>, ts: seq<Tok<W>>): (r: Parse<W>)
    ensures r.Done? && |r.rest| <= |ts|
    decreases |ts|
  {
    if Peek(ts, "&") then ParseAmps(Back(c), ts[1..]) else Done(c, ts)
  }

  function ParseLine<W>(ts: seq<Tok<W>>): (r: Parse<W>)
    ensures r.Done? ==> |r.rest| <= |ts|
    decreases |ts|, 3
  {
    match ParsePipe(ts)
    case Panic => Panic
    case Done(c, rest) =>
      var a := ParseAmps(c, rest);
      if !Peek(a.rest, ";") then a
      else
        match ParseLine(a.rest[1..])
        case Panic => Panic
        case Done(d, rest') => Done(List(a.cmd, d), rest')
  }

  function ParsePipe<W>(ts: seq<Tok<W>>): (r: Parse<W>)
    ensures r.Done? ==> |r.rest| <= |ts|
    decreases |ts|, 2
  {
    match ParseExec(ts)
    case Panic => Panic
    case Done(c, rest) =>
      if !Peek(rest, "|") then Done(c, rest)
      else
        match ParsePipe(rest[1..])
        case Panic => Panic
        case Done(d, rest') => Done(Pipe(c, d), rest')
  }

  function ParseBlock<W>(ts: seq<Tok<W>>): (r: Parse<W>)
    ensures r.Done? ==> |r.rest| <= |ts|
    decreases |ts|, 0
  {
    if !Peek(ts, "(") then Panic
    else
      match ParseLine(ts[1..])
      case Panic => Panic
      case Done(c, rest) =>
        if !Peek(rest, ")") then Panic
        else
          match ParseReds(rest[1..])
          case BadReds => Panic
          case Reds(rs, rest') => Done(Wrap(c, rs), rest')
  }

  function ParseExec<W>(ts: seq<Tok<W>>): (r: Parse<W>)
    ensures r.Done? ==> |r.rest| <= |ts|
    decreases |ts|, 1
  {
    if Peek(ts, "(") then ParseBlock(ts)
    else
      match ParseReds(ts)
      case BadReds => Panic
      case Reds(rs, rest) =>
        match ParseArgs(0, rest)
        case BadArgs => Panic
        case Args(ws, rs', rest') => Done(Wrap(Exec(ws), rs + rs'), rest')
  }

  /** parsecmd: leftovers are a syntax error. */
  function ParseAll<W>(ts: seq<Tok<W>>): Parse<W> {
    var r := ParseLine(ts);
    if r.Done? && r.rest != [] then Panic else r
  }

  // The grammar.

  datatype Line<W> = Last(p: Pipeline<W>, amps: nat) | Then(p: Pipeline<W>, amps: nat, rest: Line<W>)
  datatype Pipeline<W> = One(s: Stage<W>) | Into(s: Stage<W>, next: Pipeline<W>)
  datatype Stage<W> =
    | Simple(rs: seq<Redirect<W>>, args: seq<Arg<W>>)
    | Block(line: Line<W>, rs: seq<Redirect<W>>)
  /** A word and the redirections that follow it. */
  datatype Arg<W> = Arg(w: W, rs: seq<Redirect<W>>)

  predicate WfReds<W>(rs: seq<Redirect<W>>) {
    forall i :: 0 <= i < |rs| ==> rs[i].op in "<>+"
  }

  predicate WfStage<W>(s: Stage<W>) {
    && WfReds(s.rs)
    && match s
       case Simple(_, args) => |args| < MAXARGS && forall i :: 0 <= i < |args| ==> WfReds(args[i].rs)
       case Block(line, _) => WfLine(line)
  }

  predicate WfPipe<W>(p: Pipeline<W>) {
    WfStage(p.s) && (p.Into? ==> WfPipe(p.next))
  }

  predicate WfLine<W>(l: Line<W>) {
    WfPipe(l.p) && (l.Then? ==> WfLine(l.rest))
  }

  function FlatReds<W>(rs: seq<Redirect<W>>): seq<Tok<W>> {
    if rs == [] then [] else [Sym(rs[0].op), Word(rs[0].file)] + FlatReds(rs[1..])
  }

  function FlatArgs<W>(args: seq<Arg<W>>): seq<Tok<W>> {
    if args == [] then [] else [Word(args[0].w)] + FlatReds(args[0].rs) + FlatArgs(args[1..])
  }

  function FlatStage<W>(s: Stage<W>): seq<Tok<W>> {
    match s
    case Simple(rs, args) => FlatReds(rs) + FlatArgs(args)
    case Block(line, rs) => [Sym('(')] + FlatLine(line) + [Sym(')')] + FlatReds(rs)
  }

  function FlatPipe<W>(p: Pipeline<W>): seq<Tok<W>> {
    match p
    case One(s) => FlatStage(s)
    case Into(s, next) => FlatStage(s) + [Sym('|')] + FlatPipe(next)
  }

  function Ampersands<W>(n: nat): seq<Tok<W>> {
    if n == 0 then [] else [Sym('&')] + Ampersands(n - 1)
  }

  /** The tokens of a line. */
  function FlatLine<W>(l: Line<W>): seq<Tok<W>> {
    match l
    case Last(p, n) => FlatPipe(p) + Ampersands(n)
    case Then(p, n, rest) => FlatPipe(p) + Ampersands(n) + [Sym(';')] + FlatLine(rest)
  }

  function ArgWords<W>(args: seq<Arg<W>>): seq<W> {
    if args == [] then [] else [args[0].w] + ArgWords(args[1..])
  }

  function ArgReds<W>(args: seq<Arg<W>>): seq<Redirect<W>> {
    if args == [] then [] else args[0].rs + ArgReds(args[1..])
  }

  function Backs<W>(c: Cmd<W>, n: nat): Cmd<W>
    decreases n
  {
    if n == 0 then c else Backs(Back(c), n - 1)
  }

  function StageMeans<W>(s: Stage<W>): Cmd<W> {
    match s
    case Simple(rs, args) => Wrap(Exec(ArgWords(args)), rs + ArgReds(args))
    case Block(line, rs) => Wrap(LineMeans(line), rs)
  }

  function PipeMeans<W>(p: Pipeline<W>): Cmd<W> {
    match p
    case One(s) => StageMeans(s)
    case Into(s, next) => Pipe(StageMeans(s), PipeMeans(next))
  }

  /** The command a line stands for. */
  function LineMeans<W>(l: Line<W>): Cmd<W> {
    match l
    case Last(p, n) => Backs(PipeMeans(p), n)
    case Then(p, n, rest) => List(Backs(PipeMeans(p), n), LineMeans(rest))
  }

  // The parser accepts every line of the grammar.

  /** What can follow a redirection list; a stage; a pipeline; a line. */
  predicate Ends<W>(ts: seq<Tok<W>>, cs: string) {
    ts == [] || Peek(ts, cs)
  }

  lemma {:induction false} RedsParse<W>(rs: seq<Redirect<W>>, rest: seq<Tok<W>>)
    requires WfReds(rs) && !Peek(rest, "<>")
    ensures ParseReds(FlatReds(rs) + rest) == Reds(rs, rest)
  {
    if rs == [] {
      assert FlatReds(rs) + rest == rest;
    } else {
      var more := FlatReds(rs[1..]) + rest;
      assert FlatReds(rs) + rest == [Sym(rs[0].op), Word(rs[0].file)] + more;
      hide FlatReds, ParseReds;
      RedsParse(rs[1..], rest);
      RedsOnce(rs[0], more, rs[1..], rest);
      assert [rs[0]] + rs[1..] == rs;
    }
  }

  /** parseredirs over one redirection. */
  lemma RedsOnce<W>(r: Redirect<W>, more: seq<Tok<W>>, rs: seq<Redirect<W>>, rest: seq<Tok<W>>)
    requires r.op in "<>+" && ParseReds(more) == Reds(rs, rest)
    ensures ParseReds([Sym(r.op), Word(r.file)] + more) == Reds([r] + rs, rest)
  {
    var ts := [Sym(r.op), Word(r.file)] + more;
    assert ts[2..] == more;
  }

  /** Neither words nor what ends a stage look like a redirection or a block. */
  lemma ArgsStart<W>(args: seq<Arg<W>>, rest: seq<Tok<W>>)
    requires Ends(rest, "|)&;")
    ensures !Peek(FlatArgs(args) + rest, "<>") && !Peek(FlatArgs(args) + rest, "(")
  {
    if args == [] {
      assert FlatArgs(args) + rest == rest;
    } else {
      assert (FlatArgs(args) + rest)[0] == Word(args[0].w);
    }
  }

  lemma {:induction false} ArgsParse<W>(n: nat, args: seq<Arg<W>>, rest: seq<Tok<W>>)
    requires n + |args| < MAXARGS && (forall i :: 0 <= i < |args| ==> WfReds(args[i].rs))
    requires Ends(rest, "|)&;")
    ensures ParseArgs(n, FlatArgs(args) + rest) == Args(ArgWords(args), ArgReds(args), rest)
    decreases |args|
  {
    hide ParseReds, FlatReds, WfReds;
    if args == [] {
      assert FlatArgs(args) + rest == rest;
    } else {
      var more := FlatArgs(args[1..]) + rest;
      var tail := FlatReds(args[0].rs) + more;
      assert FlatArgs(args) + rest == [Word(args[0].w)] + tail;
      assert WfReds(args[0].rs);
      hide FlatArgs, ParseArgs, Peek, Ends;
      ArgsStart(args[1..], rest);
      ArgsParse(n + 1, args[1..], rest);
      RedsParse(args[0].rs, more);
      ArgsOnce(n, args[0].w, tail, args[0].rs, more, ArgWords(args[1..]), ArgReds(args[1..]), rest);
    }
  }

  /** parseexec's loop over one word and the redirections after it. */
  lemma ArgsOnce<W>(n: nat, w: W, tail: seq<Tok<W>>, rs: seq<Redirect<W>>, more: seq<Tok<W>>, ws: seq<W>,
                    rs': seq<Redirect<W>>, rest: seq<Tok<W>>)
    requires n + 1 < MAXARGS && ParseReds(tail) == Reds(rs, more) && ParseArgs(n + 1, more) == Args(ws, rs', rest)
    ensures ParseArgs(n, [Word(w)] + tail) == Args([w] + ws, rs + rs', rest)
  {
    hide ParseReds;
    var ts := [Word(w)] + tail;
    assert ts[1..] == tail && ts[0] == Word(w);
  }

  lemma {:induction false} AmpsParse<W>(c: Cmd<W>, n: nat, rest: seq<Tok<W>>)
    requires !Peek(rest, "&")
    ensures ParseAmps(c, Ampersands(n) + rest) == Done(Backs(c, n), rest)
    decreases n
  {
    if n == 0 {
      assert Ampersands<W>(n) + rest == rest;
    } else {
      assert (Ampersands(n) + rest)[1..] == Ampersands(n - 1) + rest;
      AmpsParse(Back(c), n - 1, rest);
    }
  }

  lemma SimpleParses<W>(rs: seq<Redirect<W>>, args: seq<Arg<W>>, rest: seq<Tok<W>>)
    requires WfStage(Simple(rs, args)) && Ends(rest, "|)&;")
    ensures ParseExec(FlatStage(Simple(rs, args)) + rest) == Done(StageMeans(Simple(rs, args)), rest)
  {
    hide ParseReds, ParseArgs, ParseBlock, Wrap, FlatArgs;
    var more := FlatArgs(args) + rest;
    var ts := FlatReds(rs) + more;
    assert FlatStage(Simple(rs, args)) + rest == ts;
    ArgsParse(0, args, rest);
    ArgsStart(args, rest);
    RedsParse(rs, more);
    if rs == [] {
      assert ts == more;
    } else {
      assert ts[0] == Sym(rs[0].op);
    }
  }

  lemma {:induction false} StageParses<W>(s: Stage<W>, rest: seq<Tok<W>>)
    requires WfStage(s) && Ends(rest, "|)&;")
    ensures ParseExec(FlatStage(s) + rest) == Done(StageMeans(s), rest)
  {
    hide ParseReds, ParseArgs, ParseLine, Wrap, FlatArgs, FlatReds, FlatLine, LineMeans;
    match s
    case Simple(rs, args) =>
      SimpleParses(rs, args, rest);
    case Block(line, rs) =>
      var ts := FlatStage(s) + rest;
      var more := [Sym(')')] + (FlatReds(rs) + rest);
      assert ts[0] == Sym('(') && ts[1..] == FlatLine(line) + more;
      LineParses(line, more);
      assert more[1..] == FlatReds(rs) + rest;
      RedsParse(rs, rest);
  }

  lemma {:induction false} PipeParses<W>(p: Pipeline<W>, rest: seq<Tok<W>>)
    requires WfPipe(p) && Ends(rest, ")&;")
    ensures ParsePipe(FlatPipe(p) + rest) == Done(PipeMeans(p), rest)
  {
    match p
    case One(s) =>
      StageParses(s, rest);
    case Into(s, next) =>
      var more := [Sym('|')] + (FlatPipe(next) + rest);
      assert FlatPipe(p) + rest == FlatStage(s) + more;
      StageParses(s, more);
      assert more[1..] == FlatPipe(next) + rest;
      PipeParses(next, rest);
  }

  lemma {:induction false} LineParses<W>(l: Line<W>, rest: seq<Tok<W>>)
    requires WfLine(l) && Ends(rest, ")")
    ensures ParseLine(FlatLine(l) + rest) == Done(LineMeans(l), rest)
  {
    hide ParsePipe, ParseAmps, FlatPipe, PipeMeans, Backs;
    var tail := if l.Last? then rest else [Sym(';')] + (FlatLine(l.rest) + rest);
    var more := Ampersands(l.amps) + tail;
    assert FlatLine(l) + rest == FlatPipe(l.p) + more;
    assert l.amps > 0 ==> more[0] == Sym('&');
    assert l.amps == 0 ==> more == tail;
    PipeParses(l.p, more);
    AmpsParse(PipeMeans(l.p), l.amps, tail);
    if l.Then? {
      assert tail[1..] == FlatLine(l.rest) + rest;
      LineParses(l.rest, rest);
    }
  }

  // Everything the parser accepts is a line of the grammar.

  lemma {:induction false} RedsSound<W>(ts: seq<Tok<W>>)
    requires ParseReds(ts).Reds?
    ensures WfReds(ParseReds(ts).rs) && ts == FlatReds(ParseReds(ts).rs) + ParseReds(ts).rest
  {
    if Peek(ts, "<>") {
      var r := ParseReds(ts[2..]);
      var first := Redirect(ts[0].c, ts[1].w);
      assert ParseReds(ts) == Reds([first] + r.rs, r.rest) && ts == [Sym(first.op), Word(first.file)] + ts[2..];
      assert first.op in "<>+";
      hide FlatReds, ParseReds, Peek;
      RedsSound(ts[2..]);
      FlatRedsMore(first, r.rs);
      Reassociate([Sym(first.op), Word(first.file)], FlatReds(r.rs), [], r.rest);
    }
  }

  lemma Reassociate<T>(a: seq<T>, b: seq<T>, c: seq<T>, d: seq<T>)
    ensures a + (b + (c + d)) == a + b + c + d
    ensures c == [] ==> a + (b + d) == a + b + d
  {
  }

  lemma FlatRedsMore<W>(r: Redirect<W>, rs: seq<Redirect<W>>)
    ensures FlatReds([r] + rs) == [Sym(r.op), Word(r.file)] + FlatReds(rs)
  {
    assert ([r] + rs)[1..] == rs;
  }

  lemma FlatArgsMore<W>(a: Arg<W>, args: seq<Arg<W>>)
    ensures FlatArgs([a] + args) == [Word(a.w)] + FlatReds(a.rs) + FlatArgs(args)
    ensures ArgWords([a] + args) == [a.w] + ArgWords(args) && ArgReds([a] + args) == a.rs + ArgReds(args)
  {
    hide FlatReds;
    assert ([a] + args)[1..] == args;
  }

  lemma {:induction false} ArgsSound<W>(n: nat, ts: seq<Tok<W>>) returns (args: seq<Arg<W>>)
    requires ParseArgs(n, ts).Args?
    ensures args == [] || n + |args| < MAXARGS
    ensures forall i :: 0 <= i < |args| ==> WfReds(args[i].rs)
    ensures var r := ParseArgs(n, ts); r.ws == ArgWords(args) && r.rs == ArgReds(args) && ts == FlatArgs(args) + r.rest
    decreases |ts|
  {
    hide ParseReds, FlatReds, WfReds;
    if Peek(ts, "|)&;") || ts == [] {
      args := [];
    } else {
      ArgsUnfold(n, ts);
      hide ParseArgs, Peek, FlatArgs, ArgWords, ArgReds;
      var r := ParseReds(ts[1..]);
      RedsSound(ts[1..]);
      var more := ArgsSound(n + 1, r.rest);
      var first := Arg(ts[0].w, r.rs);
      args := [first] + more;
      FlatArgsMore(first, more);
      Reassociate([Word(first.w)], FlatReds(r.rs), FlatArgs(more), ParseArgs(n + 1, r.rest).rest);
    }
  }

  lemma ArgsUnfold<W>(n: nat, ts: seq<Tok<W>>)
    requires ParseArgs(n, ts).Args? && !Peek(ts, "|)&;") && ts != []
    ensures ts[0].Word? && n + 1 < MAXARGS && ParseReds(ts[1..]).Reds? && ts == [Word(ts[0].w)] + ts[1..]
    ensures var r := ParseReds(ts[1..]);
            && |r.rest| < |ts| && ParseArgs(n + 1, r.rest).Args?
            && var q := ParseArgs(n + 1, r.rest); ParseArgs(n, ts) == Args([ts[0].w] + q.ws, r.rs + q.rs, q.rest)
  {
    hide ParseReds;
  }

  lemma {:induction false} AmpsSound<W>(c: Cmd<W>, ts: seq<Tok<W>>) returns (n: nat)
    ensures ParseAmps(c, ts).cmd == Backs(c, n) && ts == Ampersands(n) + ParseAmps(c, ts).rest
    decreases |ts|
  {
    if Peek(ts, "&") {
      var m := AmpsSound(Back(c), ts[1..]);
      n := m + 1;
      assert ts == [ts[0]] + ts[1..];
    } else {
      n := 0;
    }
  }

  lemma {:induction false} StageSound<W>(ts: seq<Tok<W>>) returns (s: Stage<W>)
    requires ParseExec(ts).Done?
    ensures WfStage(s) && ts == FlatStage(s) + ParseExec(ts).rest && ParseExec(ts).cmd == StageMeans(s)
    decreases |ts|, 1
  {
    hide ParseReds, ParseArgs, ParseLine, Wrap, FlatReds, FlatArgs, FlatLine, LineMeans, ArgWords, ArgReds;
    if Peek(ts, "(") {
      var l := LineSound(ts[1..]);
      var more := ParseLine(ts[1..]).rest;
      var r := ParseReds(more[1..]);
      RedsSound(more[1..]);
      s := Block(l, r.rs);
      assert ts == [ts[0]] + ts[1..] && more == [more[0]] + more[1..];
    } else {
      var r := ParseReds(ts);
      RedsSound(ts);
      var args := ArgsSound(0, r.rest);
      s := Simple(r.rs, args);
    }
  }

  lemma {:induction false} PipeSound<W>(ts: seq<Tok<W>>) returns (p: Pipeline<W>)
    requires ParsePipe(ts).Done?
    ensures WfPipe(p) && ts == FlatPipe(p) + ParsePipe(ts).rest && ParsePipe(ts).cmd == PipeMeans(p)
    decreases |ts|, 2
  {
    hide ParseExec, FlatStage, StageMeans, WfStage;
    var s := StageSound(ts);
    var rest := ParseExec(ts).rest;
    if Peek(rest, "|") {
      var next := PipeSound(rest[1..]);
      p := Into(s, next);
      assert rest == [rest[0]] + rest[1..];
    } else {
      p := One(s);
    }
  }

  lemma {:induction false} LineSound<W>(ts: seq<Tok<W>>) returns (l: Line<W>)
    requires ParseLine(ts).Done?
    ensures WfLine(l) && ts == FlatLine(l) + ParseLine(ts).rest && ParseLine(ts).cmd == LineMeans(l)
    decreases |ts|, 3
  {
    hide ParsePipe, ParseAmps, FlatPipe, PipeMeans, WfPipe, Ampersands, Backs;
    var p := PipeSound(ts);
    var c := ParsePipe(ts);
    var n := AmpsSound(c.cmd, c.rest);
    var a := ParseAmps(c.cmd, c.rest);
    if Peek(a.rest, ";") {
      var more := LineSound(a.rest[1..]);
      l := Then(p, n, more);
      assert a.rest == [a.rest[0]] + a.rest[1..];
    } else {
      l := Last(p, n);
    }
  }

  ghost predicate Derives<W>(l: Line<W>, ts: seq<Tok<W>>, c: Cmd<W>) {
    WfLine(l) && FlatLine(l) == ts && LineMeans(l) == c
  }

  /** parsecmd returns `c` exactly on the token strings of the lines that mean `c`. */
  lemma GrammarExact<W(!new)>(ts: seq<Tok<W>>, c: Cmd<W>)
    ensures ParseAll(ts) == Done(c, []) <==> exists l :: Derives(l, ts, c)
  {
    hide ParseLine, FlatLine, LineMeans, WfLine;
    if ParseAll(ts) == Done(c, []) {
      var l := LineSound(ts);
      assert FlatLine(l) + [] == FlatLine(l);
      assert Derives(l, ts, c);
    }
    if exists l :: Derives(l, ts, c) {
      var l :| Derives(l, ts, c);
      LineParses(l, []);
      assert ts + [] == ts;
    }
  }

  // Commands that can be written down, and how.

  predicate Writable<W>(c: Cmd<W>) {
    match c
    case Exec(argv) => |argv| < MAXARGS
    case Redir(sub, _, mode, fd) =>
      Writable(sub) && ((mode == O_RDONLY && fd == 0) || (mode == O_WRONLY_CREATE && fd == 1))
    case Pipe(left, right) => Writable(left) && Writable(right)
    case List(left, right) => Writable(left) && Writable(right)
    case Back(sub) => Writable(sub)
  }

  function AsArgs<W>(ws: seq<W>): seq<Arg<W>> {
    if ws == [] then [] else [Arg(ws[0], [])] + AsArgs(ws[1..])
  }

  /** The fully parenthesised line for `c`. */
  function Printed<W>(c: Cmd<W>): Line<W> {
    match c
    case Exec(argv) => Last(One(Simple([], AsArgs(argv))), 0)
    case Redir(sub, file, mode, _) =>
      Last(One(Block(Printed(sub), [Redirect(if mode == O_RDONLY then '<' else '>', file)])), 0)
    case Pipe(left, right) => Last(Into(Block(Printed(left), []), One(Block(Printed(right), []))), 0)
    case List(left, right) => Then(One(Block(Printed(left), [])), 0, Last(One(Block(Printed(right), [])), 0))
    case Back(sub) => Last(One(Block(Printed(sub), [])), 1)
  }

  lemma {:induction false} AsArgsWords<W>(ws: seq<W>)
    ensures |AsArgs(ws)| == |ws| && (forall i :: 0 <= i < |ws| ==> AsArgs(ws)[i].rs == [])
    ensures ArgWords(AsArgs(ws)) == ws && ArgReds(AsArgs(ws)) == []
  {
    if ws != [] {
      AsArgsWords(ws[1..]);
      assert AsArgs(ws)[1..] == AsArgs(ws[1..]);
    }
  }

  /** A line of one parenthesised command. */
  lemma BlockLine<W>(l: Line<W>, rs: seq<Redirect<W>>, n: nat)
    requires WfLine(l) && WfReds(rs)
    ensures StageMeans(Block(l, rs)) == Wrap(LineMeans(l), rs)
    ensures WfLine(Last(One(Block(l, rs)), n))
    ensures LineMeans(Last(One(Block(l, rs)), n)) == Backs(Wrap(LineMeans(l), rs), n)
  {
    hide Wrap, Backs;
    var s := Block(l, rs);
    assert WfStage(s) && StageMeans(s) == Wrap(LineMeans(l), rs);
    assert WfPipe(One(s)) && PipeMeans(One(s)) == StageMeans(s);
  }

  lemma {:induction false} PrintedMeans<W>(c: Cmd<W>)
    requires Writable(c)
    ensures WfLine(Printed(c)) && LineMeans(Printed(c)) == c
  {
    match c
    case Exec(argv) =>
      AsArgsWords(argv);
      var s := Simple([], AsArgs(argv));
      assert s.rs + ArgReds(s.args) == [];
      assert WfStage(s) && StageMeans(s) == c;
      assert WfPipe(One(s)) && PipeMeans(One(s)) == c;
    case Redir(sub, file, mode, fd) =>
      PrintedMeans(sub);
      var r := Redirect(if mode == O_RDONLY then '<' else '>', file);
      BlockLine(Printed(sub), [r], 0);
      assert Wrap(sub, [r]) == Wrap(Redirected(sub, r), []);
    case Pipe(left, right) =>
      PrintedMeans(left);
      PrintedMeans(right);
      BlockLine(Printed(left), [], 0);
      BlockLine(Printed(right), [], 0);
      var l, r := Block(Printed(left), []), Block(Printed(right), []);
      assert WfStage(l) && WfPipe(One(r)) && WfPipe(Into(l, One(r)));
      assert PipeMeans(One(r)) == right && PipeMeans(Into(l, One(r))) == c;
    case List(left, right) =>
      PrintedMeans(left);
      PrintedMeans(right);
      BlockLine(Printed(left), [], 0);
      BlockLine(Printed(right), [], 0);
    case Back(sub) =>
      PrintedMeans(sub);
      BlockLine(Printed(sub), [], 1);
      assert Backs(sub, 1) == Backs(Back(sub), 0);
  }

  /** Parsing the printed form of a command gives the command back. */
  lemma PrintThenParse<W>(c: Cmd<W>)
    requires Writable(c)
    ensures ParseAll(FlatLine(Printed(c))) == Done(c, [])
  {
    hide Printed, ParseLine, FlatLine, LineMeans, WfLine, Writable;
    PrintedMeans(c);
    LineParses(Printed(c), []);
    assert FlatLine(Printed(c)) + [] == FlatLine(Printed(c));
  }

  lemma {:induction false} WrapWritable<W>(c: Cmd<W>, rs: seq<Redirect<W>>)
    requires Writable(c)
    ensures Writable(Wrap(c, rs))
    decreases |rs|
  {
    if rs != [] {
      WrapWritable(Redirected(c, rs[0]), rs[1..]);
    }
  }

  lemma {:induction false} BacksWritable<W>(c: Cmd<W>, n: nat)
    requires Writable(c)
    ensures Writable(Backs(c, n))
    decreases n
  {
    if n > 0 {
      BacksWritable(Back(c), n - 1);
    }
  }

  lemma {:induction false} ArgWordsSize<W>(args: seq<Arg<W>>)
    ensures |ArgWords(args)| == |args|
  {
    if args != [] {
      ArgWordsSize(args[1..]);
    }
  }

  lemma {:induction false} StageWritable<W>(s: Stage<W>)
    requires WfStage(s)
    ensures Writable(StageMeans(s))
  {
    match s
    case Simple(rs, args) =>
      ArgWordsSize(args);
      WrapWritable(Exec(ArgWords(args)), rs + ArgReds(args));
    case Block(line, rs) =>
      LineWritable(line);
      WrapWritable(LineMeans(line), rs);
  }

  lemma {:induction false} PipeWritable<W>(p: Pipeline<W>)
    requires WfPipe(p)
    ensures Writable(PipeMeans(p))
  {
    StageWritable(p.s);
    if p.Into? {
      PipeWritable(p.next);
    }
  }

  lemma {:induction false} LineWritable<W>(l: Line<W>)
    requires WfLine(l)
    ensures Writable(LineMeans(l))
  {
    PipeWritable(l.p);
    BacksWritable(PipeMeans(l.p), l.amps);
    if l.Then? {
      LineWritable(l.rest);
    }
  }

  /** Whatever parsecmd returns can be printed, and the print parses to it again. */
  lemma ParseThenPrint<W>(ts: seq<Tok<W>>)
    requires ParseAll(ts).Done?
    ensures Writable(ParseAll(ts).cmd)
    ensures ParseAll(FlatLine(Printed(ParseAll(ts).cmd))) == ParseAll(ts)
  {
    hide Printed, ParseLine, FlatLine, LineMeans, WfLine, Writable;
    var l := LineSound(ts);
    LineWritable(l);
    PrintThenParse(ParseAll(ts).cmd);
  }
}
