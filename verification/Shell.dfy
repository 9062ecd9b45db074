/**
 The shell's parser, sh.c, as it works on its buffer: a cursor advanced in place, command nodes
 allocated as it goes, and at the end a NUL stored after every word. Where the shell panics, `ok`
 is false.
 */
module Shell {
  import opened ShellSyntax
  import opened ShellLex
  import opened ShellNodes

  const NUL := '\0'

  /** gettoken's answer: 'a' for a word. */
  function Kind(t: Tok<Span>): char {
    if t.Word? then 'a' else t.c
  }

  function PrependReds<W>(rs: seq<Redirect<W>>, r: Reds<W>): Reds<W> {
    if r.BadReds? then r else Reds(rs + r.rs, r.rest)
  }

  function PrependArgs<W>(ws: seq<W>, rs: seq<Redirect<W>>, r: Args<W>): Args<W> {
    if r.BadArgs? then r else Args(ws + r.ws, rs + r.rs, r.rest)
  }

  /** One more redirection of a list. */
  lemma RedsStep<W>(acc: seq<Redirect<W>>, ts: seq<Tok<W>>)
    requires Peek(ts, "<>") && |ts| >= 2 && ts[1].Word?
    ensures ts[0].Sym?
    ensures PrependReds(acc, ParseReds(ts)) == PrependReds(acc + [Redirect(ts[0].c, ts[1].w)], ParseReds(ts[2..]))
  {
    hide PrependReds, ParseReds;
    var r := [Redirect(ts[0].c, ts[1].w)];
    FirstRed(ts);
    PrependTwice(acc, r, ParseReds(ts[2..]));
  }

  lemma FirstRed<W>(ts: seq<Tok<W>>)
    requires Peek(ts, "<>") && |ts| >= 2 && ts[1].Word?
    ensures ts[0].Sym? && ParseReds(ts) == PrependReds([Redirect(ts[0].c, ts[1].w)], ParseReds(ts[2..]))
  {
  }

  lemma PrependTwice<W>(a: seq<Redirect<W>>, b: seq<Redirect<W>>, r: Reds<W>)
    ensures PrependReds(a, PrependReds(b, r)) == PrependReds(a + b, r)
  {
    if r.Reds? {
      assert a + (b + r.rs) == a + b + r.rs;
    }
  }

  /** One more word of a command, with the redirections after it. */
  lemma ArgsStep<W>(ws: seq<W>, rs: seq<Redirect<W>>, n: nat, ts: seq<Tok<W>>)
    requires ts != [] && ts[0].Word? && n + 1 < MAXARGS && ParseReds(ts[1..]).Reds?
    ensures var r := ParseReds(ts[1..]);
            PrependArgs(ws, rs, ParseArgs(n, ts)) == PrependArgs(ws + [ts[0].w], rs + r.rs, ParseArgs(n + 1, r.rest))
  {
    var r := ParseReds(ts[1..]);
    var a := ParseArgs(n + 1, r.rest);
    if a.Args? {
      assert ws + ([ts[0].w] + a.ws) == ws + [ts[0].w] + a.ws;
      assert rs + (r.rs + a.rs) == rs + r.rs + a.rs;
    }
  }

  class Parser {
    var buf: array<char>
    /** The end of the line and the cursor. */
    var es: nat
    var ps: nat
    var nodes: seq<Node>
    ghost var text: string

    ghost predicate Valid()
      reads this, buf
    {
      && es < buf.Length && text == buf[..es] && buf[es] == NUL && ps <= es
      && (forall k :: 0 <= k < |text| ==> text[k] != NUL)
      && Arena(nodes) && (forall i :: 0 <= i < |nodes| ==> NodeTokens(text, nodes[i]))
    }

    /** What is left to parse. */
    ghost function Toks(): seq<Tok<Span>>
      reads this, buf
      requires Valid()
    {
      Lex(text, ps)
    }

    /** The node `ret` was built for `c`, with `rest` left, and older nodes are as they were. */
    ghost predicate Built(r: Parse<Span>, older: seq<Node>, ok: bool, ret: int)
      reads this, buf
    {
      match r
      case Panic => !ok
      case Done(c, rest) =>
        && ok && Valid() && Toks() == rest && 0 <= ret < |nodes| && Tree(nodes, ret) == c
        && Grown(older, nodes)
    }

    method SkipWhite(i: nat) returns (s: nat)
      requires Valid() && i <= es
      ensures s == Skip(text, i)
    {
      hide Lex, Arena, NodeTokens;
      s := i;
      while s < es && buf[s] in WHITESPACE
        invariant i <= s <= es && Skip(text, s) == Skip(text, i)
      {
        s := s + 1;
      }
    }

    /** gettoken's switch: one token, from its first character. */
    method Scan(q: nat) returns (ret: char, eq: nat)
      requires Valid() && q <= es && (q < es ==> !White(text[q]))
      ensures q <= eq <= es
      ensures q == es ==> ret == NUL && eq == q
      ensures q < es ==>
                ret == Kind(TokAt(text, q)) && eq == EndAt(text, q) && ret != NUL && (ret == 'a' <==> WordChar(text[q]))
    {
      hide Arena, NodeTokens, Skip;
      var s := q;
      ret := buf[s];
      if ret == NUL {
      } else if ret in "|();&<" {
        s := s + 1;
      } else if ret == '>' {
        s := s + 1;
        if buf[s] == '>' {
          ret := '+';
          s := s + 1;
        }
      } else {
        ret := 'a';
        while s < es && buf[s] !in WHITESPACE && buf[s] !in SYMBOLS
          invariant q <= s <= es && WordEnd(text, s) == WordEnd(text, q)
        {
          s := s + 1;
        }
      }
      eq := s;
    }

    /** gettoken. */
    method GetToken() returns (ret: char, q: int, eq: int)
      requires Valid()
      modifies `ps
      ensures Valid() && old(ps) <= ps
      ensures old(Toks()) == [] ==> Toks() == []
      ensures old(Toks()) != [] ==> ret == Kind(old(Toks())[0]) && Toks() == old(Toks())[1..]
      ensures ret == NUL <==> old(Toks()) == []
      ensures ret == 'a' <==> old(Toks()) != [] && old(Toks())[0].Word?
      ensures ret == 'a' ==> old(Toks())[0].w == Span(q, eq) && IsToken(text, Span(q, eq))
    {
      hide Arena, NodeTokens, White, WordChar, Append;
      var s := SkipWhite(ps);
      q := s;
      ret, s := Scan(s);
      eq := s;
      s := SkipWhite(s);
      LexSkip(text, eq, s);
      ps := s;
    }

    /** peek. */
    method PeekAt(cs: string) returns (b: bool)
      requires Valid() && forall k :: 0 <= k < |cs| ==> cs[k] in SYMBOLS
      modifies `ps
      ensures Valid() && ps == Skip(text, old(ps))
      ensures Toks() == old(Toks()) && b == Peek(Toks(), cs)
    {
      hide Arena, NodeTokens;
      var s := SkipWhite(ps);
      LexSkip(text, ps, s);
      ps := s;
      b := buf[s] != NUL && buf[s] in cs;
    }

    /** A constructor: the new node's index. */
    method Alloc(n: Node) returns (i: int)
      requires Valid() && Below(n, |nodes|) && NodeTokens(text, n)
      modifies `nodes
      ensures Valid() && i == |old(nodes)| && nodes == old(nodes) + [n]
      ensures Grown(old(nodes), nodes) && Toks() == old(Toks())
    {
      i := |nodes|;
      nodes := nodes + [n];
    }

    /** parseredirs. */
    method ReadRedirs(cmd: int) returns (ok: bool, ret: int)
      requires Valid() && 0 <= cmd < |nodes|
      modifies `ps, `nodes
      ensures !ok <==> ParseReds(old(Toks())).BadReds?
      ensures ok ==> Valid() && Grown(old(nodes), nodes) && Toks() == ParseReds(old(Toks())).rest
      ensures ok ==> 0 <= ret < |nodes| && Chained(nodes, ret, cmd, ParseReds(old(Toks())).rs)
    {
      hide Arena, NodeTokens, Lex, ParseReds, Chained, IsToken;
      ghost var acc: seq<Redirect<Span>> := [];
      ret := cmd;
      assert Chained(nodes, ret, cmd, acc) by { NoChain(nodes, cmd); }
      assert PrependReds(acc, ParseReds(Toks())) == ParseReds(Toks()) by { NoReds(ParseReds(Toks())); }
      var more := PeekAt("<>");
      while more
        invariant Valid() && Grown(old(nodes), nodes) && 0 <= ret < |nodes| && Chained(nodes, ret, cmd, acc)
        invariant more == Peek(Toks(), "<>")
        invariant ParseReds(old(Toks())) == PrependReds(acc, ParseReds(Toks()))
        decreases |Toks()|
      {
        ghost var ts := Toks();
        var tok, q, eq := GetToken();
        var word;
        word, q, eq := GetToken();
        if word != 'a' {
          NoFile(ts);
          return false, ret;
        }
        ghost var r := Redirect(ts[0].c, Span(q, eq));
        RedsStep(acc, ts);
        ChainSnoc(nodes, ret, cmd, acc, r);
        if tok == '<' {
          ret := Alloc(RedirNode(ret, Span(q, eq), O_RDONLY, 0));
        } else {
          ret := Alloc(RedirNode(ret, Span(q, eq), O_WRONLY_CREATE, 1));
        }
        acc := acc + [r];
        more := PeekAt("<>");
      }
      NoRedsLeft(acc, Toks());
      return true, ret;
    }

    /** One turn of parseexec's loop, past the test: a word and the redirections after it. */
    method ReadArg(cmd: int, top: int, argc: nat, ghost rs: seq<Redirect<Span>>) returns (ok: bool, end: bool, ret: int)
      requires Valid() && 0 <= cmd < |nodes| && 0 <= top < |nodes| && Chained(nodes, top, cmd, rs)
      requires nodes[cmd].ExecNode? && argc == |nodes[cmd].argv| < MAXARGS && !Peek(Toks(), "|)&;")
      modifies `ps, `nodes
      ensures ok && end <==> old(Toks()) == []
      ensures ok && end ==> Valid() && Toks() == [] && nodes == old(nodes) && ret == top
      ensures !ok ==> ParseArgs(argc, old(Toks())).BadArgs?
      ensures ok && !end ==>
                old(Toks()) != [] && old(Toks())[0].Word? && argc + 1 < MAXARGS && ParseReds(old(Toks())[1..]).Reds?
      ensures ok && !end ==> Valid() && Toks() == ParseReds(old(Toks())[1..]).rest && |old(nodes)| <= |nodes|
      ensures ok && !end ==> forall i :: 0 <= i < |old(nodes)| && i != cmd ==> nodes[i] == old(nodes)[i]
      ensures ok && !end ==> nodes[cmd] == ExecNode(old(nodes[cmd].argv) + [old(Toks())[0].w])
      ensures ok && !end ==> 0 <= ret < |nodes| && Chained(nodes, ret, cmd, rs + ParseReds(old(Toks())[1..]).rs)
    {
      hide Lex, ParseReds, Chained, IsToken;
      ret, end := top, false;
      var tok, q, eq := GetToken();
      if tok == NUL {
        return true, true, ret;
      }
      if tok != 'a' {
        return false, false, ret;
      }
      ChainFilled(nodes, top, cmd, rs, nodes[cmd].argv + [Span(q, eq)]);
      nodes := nodes[cmd := ExecNode(nodes[cmd].argv + [Span(q, eq)])];
      if argc + 1 >= MAXARGS {
        return false, false, ret;
      }
      ghost var nodes0 := nodes;
      ok, ret := ReadRedirs(top);
      if ok {
        ChainGrown(nodes0, nodes, top, cmd, rs);
        ChainConcat(nodes, ret, top, cmd, rs, ParseReds(old(Toks())[1..]).rs);
      }
    }

    /** parseexec's loop: fill in the words of node `cmd`, already wrapped in `rs`. */
    method FillArgs(cmd: int, top: int, ghost rs: seq<Redirect<Span>>) returns (ok: bool, ret: int)
      requires Valid() && 0 <= cmd < |nodes| && 0 <= top < |nodes| && Chained(nodes, top, cmd, rs)
      requires nodes[cmd] == ExecNode([])
      modifies `ps, `nodes
      ensures ok <==> ParseArgs(0, old(Toks())).Args?
      ensures ok ==> Valid() && Toks() == ParseArgs(0, old(Toks())).rest && |old(nodes)| <= |nodes|
      ensures ok ==> forall i :: 0 <= i < |old(nodes)| && i != cmd ==> nodes[i] == old(nodes)[i]
      ensures ok ==> nodes[cmd] == ExecNode(ParseArgs(0, old(Toks())).ws)
      ensures ok ==> 0 <= ret < |nodes| && Chained(nodes, ret, cmd, rs + ParseArgs(0, old(Toks())).rs)
    {
      hide Lex, ParseReds, ParseArgs, Chained, Arena, NodeTokens;
      var argc := 0;
      ret := top;
      ghost var acc: seq<Redirect<Span>> := [];
      assert rs + acc == rs;
      NoArgs(ParseArgs(0, Toks()));
      var end := PeekAt("|)&;");
      while !end
        invariant Valid() && |old(nodes)| <= |nodes| && 0 <= ret < |nodes| && Chained(nodes, ret, cmd, rs + acc)
        invariant forall i :: 0 <= i < |old(nodes)| && i != cmd ==> nodes[i] == old(nodes)[i]
        invariant nodes[cmd].ExecNode? && argc == |nodes[cmd].argv| < MAXARGS
        invariant ParseArgs(0, old(Toks())) == PrependArgs(nodes[cmd].argv, acc, ParseArgs(argc, Toks()))
        invariant end ==> Peek(Toks(), "|)&;") || Toks() == []
        invariant !end ==> !Peek(Toks(), "|)&;")
        decreases !end, |Toks()|
      {
        ghost var ts, ws := Toks(), nodes[cmd].argv;
        ok, end, ret := ReadArg(cmd, ret, argc, rs + acc);
        if !ok {
          return;
        }
        if !end {
          ArgsStep(ws, acc, argc, ts);
          ghost var more := ParseReds(ts[1..]).rs;
          assert rs + acc + more == rs + (acc + more);
          acc := acc + more;
          argc := argc + 1;
          end := PeekAt("|)&;");
        }
      }
      NoArgsLeft(nodes[cmd].argv, acc, argc, Toks());
      return true, ret;
    }

    /** parseexec. */
    method ReadExec() returns (ok: bool, ret: int)
      requires Valid()
      modifies `ps, `nodes
      ensures Built(ParseExec(old(Toks())), old(nodes), ok, ret)
      decreases |Toks()|, 1
    {
      hide Lex, ParseReds, ParseArgs, Chained, ParseLine, ParseBlock, Wrap, IsToken;
      var block := PeekAt("(");
      if block {
        ok, ret := ReadBlock();
        return;
      }
      var cmd := Alloc(ExecNode([]));
      ghost var ts := Toks();
      ok, ret := ReadRedirs(cmd);
      if !ok {
        return;
      }
      ghost var r := ParseReds(ts);
      ok, ret := FillArgs(cmd, ret, r.rs);
      if ok {
        ChainTree(nodes, ret, cmd, r.rs + ParseArgs(0, r.rest).rs);
      }
    }

    /** parseblock. */
    method ReadBlock() returns (ok: bool, ret: int)
      requires Valid()
      modifies `ps, `nodes
      ensures Built(ParseBlock(old(Toks())), old(nodes), ok, ret)
      decreases |Toks()|, 0
    {
      hide Lex, ParseReds, Chained, ParseLine, Wrap, IsToken, Arena, NodeTokens;
      var paren := PeekAt("(");
      if !paren {
        return false, 0;
      }
      var tok, q, eq := GetToken();
      ghost var ts := Toks();
      ok, ret := ReadLine();
      if !ok {
        return;
      }
      paren := PeekAt(")");
      if !paren {
        return false, ret;
      }
      ghost var cmd, nodes0 := ret, nodes;
      tok, q, eq := GetToken();
      ghost var us := Toks();
      ok, ret := ReadRedirs(ret);
      if ok {
        TreeGrown(nodes0, nodes, cmd);
        ChainTree(nodes, ret, cmd, ParseReds(us).rs);
      }
    }

    /** parsepipe. */
    method ReadPipe() returns (ok: bool, ret: int)
      requires Valid()
      modifies `ps, `nodes
      ensures Built(ParsePipe(old(Toks())), old(nodes), ok, ret)
      decreases |Toks()|, 2
    {
      hide Lex, ParseExec, IsToken;
      ok, ret := ReadExec();
      if !ok {
        return;
      }
      var bar := PeekAt("|");
      if bar {
        ghost var nodes0 := nodes;
        var tok, q, eq := GetToken();
        var right;
        ok, right := ReadPipe();
        if ok {
          ghost var nodes1 := nodes;
          TreeGrown(nodes0, nodes1, ret);
          var left := ret;
          ret := Alloc(PipeNode(left, right));
          TreeGrown(nodes1, nodes, left);
          TreeGrown(nodes1, nodes, right);
        }
      }
    }

    /** parseline's loop. */
    method ReadAmps(cmd: int) returns (ret: int)
      requires Valid() && 0 <= cmd < |nodes|
      modifies `ps, `nodes
      ensures Built(ParseAmps(old(Tree(nodes, cmd)), old(Toks())), old(nodes), true, ret)
    {
      hide Lex, ParseAmps, IsToken;
      ret := cmd;
      var more := PeekAt("&");
      while more
        invariant Valid() && Grown(old(nodes), nodes) && 0 <= ret < |nodes|
        invariant more == Peek(Toks(), "&")
        invariant ParseAmps(old(Tree(nodes, cmd)), old(Toks())) == ParseAmps(Tree(nodes, ret), Toks())
        decreases |Toks()|
      {
        ghost var nodes0, ts := nodes, Toks();
        var tok, q, eq := GetToken();
        AmpsStep(Tree(nodes, ret), ts);
        var sub := ret;
        ret := Alloc(BackNode(sub));
        TreeGrown(nodes0, nodes, sub);
        more := PeekAt("&");
      }
      NoAmps(Tree(nodes, ret), Toks());
    }

    /** parseline. */
    method ReadLine() returns (ok: bool, ret: int)
      requires Valid()
      modifies `ps, `nodes
      ensures Built(ParseLine(old(Toks())), old(nodes), ok, ret)
      decreases |Toks()|, 3
    {
      hide Lex, ParsePipe, ParseAmps, IsToken;
      ok, ret := ReadPipe();
      if !ok {
        return;
      }
      ret := ReadAmps(ret);
      var more := PeekAt(";");
      if more {
        ghost var nodes0 := nodes;
        var tok, q, eq := GetToken();
        var right;
        ok, right := ReadLine();
        if ok {
          ghost var nodes1 := nodes;
          TreeGrown(nodes0, nodes1, ret);
          var left := ret;
          ret := Alloc(ListNode(left, right));
          TreeGrown(nodes1, nodes, left);
          TreeGrown(nodes1, nodes, right);
        }
      }
    }

    /** nulterminate: store a NUL at the end of each word of `cmd`, and nowhere else. */
    method Nulterminate(cmd: int)
      requires Arena(nodes) && 0 <= cmd < |nodes| && (forall i :: 0 <= i < |nodes| ==> NodeTokens(text, nodes[i]))
      requires |text| < buf.Length
      modifies buf
      ensures forall k :: 0 <= k < buf.Length ==> buf[k] == if Ending(Tree(nodes, cmd), k) then NUL else old(buf[k])
      decreases cmd
    {
      assert Below(nodes[cmd], cmd) && NodeTokens(text, nodes[cmd]);
      match nodes[cmd]
      case ExecNode(argv) =>
        var i := 0;
        while i < |argv|
          invariant 0 <= i <= |argv|
          invariant forall k :: 0 <= k < buf.Length ==> buf[k] == if EndsIn(argv, i, k) then NUL else old(buf[k])
        {
          assert IsToken(text, argv[i]);
          buf[argv[i].eq] := NUL;
          i := i + 1;
        }
      case RedirNode(sub, file, _, _) =>
        Nulterminate(sub);
        assert IsToken(text, file);
        buf[file.eq] := NUL;
      case PipeNode(left, right) =>
        Nulterminate(left);
        Nulterminate(right);
      case ListNode(left, right) =>
        Nulterminate(left);
        Nulterminate(right);
      case BackNode(sub) =>
        Nulterminate(sub);
    }

    /** A line of input, as getcmd leaves it. */
    constructor (line: string)
      requires forall k :: 0 <= k < |line| ==> line[k] != NUL
      ensures Valid() && text == line && ps == 0 && fresh(buf)
    {
      buf := new char[|line| + 1](i requires 0 <= i => if i < |line| then line[i] else NUL);
      es, ps, nodes, text := |line|, 0, [], line;
      new;
      assert buf[..es] == line;
    }

    /** parsecmd: the command, with each of its words a string of its own in the buffer. */
    method ParseCmd() returns (ok: bool, ret: int)
      requires Valid() && ps == 0
      modifies `ps, `nodes, buf
      ensures ok <==> ParseText(text).Done?
      ensures ok ==> Arena(nodes) && 0 <= ret < |nodes| && ParseText(text) == Done(TextCmd(text, Tree(nodes, ret)), [])
      ensures ok ==> forall w :: Uses(Tree(nodes, ret), w) ==> IsString(buf[..], w.q, TextOf(text, w))
    {
      hide Lex, ParseLine, Tree, Uses, TextCmd, Arena, NodeTokens;
      ok, ret := ReadLine();
      if !ok {
        return;
      }
      var end := PeekAt("");
      LexLeft(text, ps);
      if ps != es {
        return false, ret;
      }
      ghost var chars := buf[..];
      Nulterminate(ret);
      forall w | Uses(Tree(nodes, ret), w) ensures IsString(buf[..], w.q, TextOf(text, w)) {
        StringEnds(text, nodes, ret, w, chars, buf[..]);
      }
    }
  }

  lemma AmpsStep(c: Cmd<Span>, ts: seq<Tok<Span>>)
    requires Peek(ts, "&")
    ensures ParseAmps(c, ts) == ParseAmps(Back(c), ts[1..])
  {
  }

  lemma NoAmps(c: Cmd<Span>, ts: seq<Tok<Span>>)
    requires !Peek(ts, "&")
    ensures ParseAmps(c, ts) == Done(c, ts)
  {
  }

  lemma NoArgs(r: Args<Span>)
    ensures PrependArgs([], [], r) == r
  {
  }

  lemma NoArgsLeft(ws: seq<Span>, rs: seq<Redirect<Span>>, n: nat, ts: seq<Tok<Span>>)
    requires Peek(ts, "|)&;") || ts == []
    ensures PrependArgs(ws, rs, ParseArgs(n, ts)) == Args(ws, rs, ts)
  {
  }

  lemma NoChain(nodes: seq<Node>, cmd: int)
    ensures Chained(nodes, cmd, cmd, [])
  {
  }

  lemma NoReds<W>(r: Reds<W>)
    ensures PrependReds([], r) == r
  {
  }

  lemma NoFile(ts: seq<Tok<Span>>)
    requires Peek(ts, "<>") && (|ts| < 2 || !ts[1].Word?)
    ensures ParseReds(ts).BadReds?
  {
  }

  lemma NoRedsLeft(acc: seq<Redirect<Span>>, ts: seq<Tok<Span>>)
    requires !Peek(ts, "<>")
    ensures PrependReds(acc, ParseReds(ts)) == Reds(acc, ts)
  {
  }

  ghost predicate EndsIn(argv: seq<Span>, n: int, k: int)
    requires 0 <= n <= |argv|
  {
    exists i :: 0 <= i < n && argv[i].eq == k
  }

  /** Tokens are left unless the cursor stands at the end. */
  lemma LexLeft(s: string, i: nat)
    requires i <= |s| && i == Skip(s, i)
    ensures Lex(s, i) == [] <==> i == |s|
  {
  }

  /** The C string at `q` in a buffer. */
  ghost predicate IsString(buf: seq<char>, q: int, str: string) {
    && 0 <= q && q + |str| < |buf| && buf[q + |str|] == NUL
    && forall k :: 0 <= k < |str| ==> str[k] != NUL && buf[q + k] == str[k]
  }

  /** The NULs of one word's end fall outside every other word. */
  lemma StringEnds(s: string, nodes: seq<Node>, i: int, w: Span, chars: seq<char>, buf: seq<char>)
    requires Arena(nodes) && 0 <= i < |nodes| && (forall j :: 0 <= j < |nodes| ==> NodeTokens(s, nodes[j]))
    requires |s| < |chars| == |buf| && chars[..|s|] == s && (forall k :: 0 <= k < |s| ==> s[k] != NUL)
    requires forall k :: 0 <= k < |buf| ==> buf[k] == if Ending(Tree(nodes, i), k) then NUL else chars[k]
    requires Uses(Tree(nodes, i), w)
    ensures IsString(buf, w.q, TextOf(s, w))
  {
    hide Ending, Tree, Uses, NodeTokens, Arena, WordChar;
    UsesToken(s, nodes, i, w);
    var str := TextOf(s, w);
    forall k | 0 <= k < |str| ensures str[k] != NUL && buf[w.q + k] == str[k] {
      assert str[k] == s[w.q + k] == chars[w.q + k];
      if Ending(Tree(nodes, i), w.q + k) {
        EndingOutside(s, nodes, i, w.q + k);
      }
    }
  }
}
