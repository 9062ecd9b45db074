/**
 The command nodes that sh.c's constructors allocate: an arena in which a node refers to nodes
 allocated before it, the tree a node stands for, and what filling in a command's words later does
 to the redirections already built around it.
 */
module ShellNodes {
  import opened ShellSyntax
  import opened ShellLex

  datatype Node =
    | ExecNode(argv: seq<Span>)
    | RedirNode(cmd: int, file: Span, mode: int, fd: int)
    | PipeNode(left: int, right: int)
    | ListNode(left: int, right: int)
    | BackNode(cmd: int)

  predicate Below(n: Node, i: int) {
    match n
    case ExecNode(_) => true
    case RedirNode(cmd, _, _, _) => 0 <= cmd < i
    case PipeNode(left, right) => 0 <= left < i && 0 <= right < i
    case ListNode(left, right) => 0 <= left < i && 0 <= right < i
    case BackNode(cmd) => 0 <= cmd < i
  }

  ghost predicate Arena(nodes: seq<Node>) {
    forall i :: 0 <= i < |nodes| ==> Below(nodes[i], i)
  }

  /** The command a node stands for. */
  ghost function Tree(nodes: seq<Node>, i: int): Cmd<Span>
    requires Arena(nodes) && 0 <= i < |nodes|
    decreases i
  {
    assert Below(nodes[i], i);
    match nodes[i]
    case ExecNode(argv) => Exec(argv)
    case RedirNode(cmd, file, mode, fd) => Redir(Tree(nodes, cmd), file, mode, fd)
    case PipeNode(left, right) => Pipe(Tree(nodes, left), Tree(nodes, right))
    case ListNode(left, right) => List(Tree(nodes, left), Tree(nodes, right))
    case BackNode(cmd) => Back(Tree(nodes, cmd))
  }

  ghost predicate Grown(a: seq<Node>, b: seq<Node>) {
    |a| <= |b| && forall i :: 0 <= i < |a| ==> b[i] == a[i]
  }

  lemma {:induction false} TreeGrown(a: seq<Node>, b: seq<Node>, i: int)
    requires Arena(a) && Arena(b) && Grown(a, b) && 0 <= i < |a|
    ensures Tree(b, i) == Tree(a, i)
    decreases i
  {
    assert Below(a[i], i);
    match a[i]
    case ExecNode(_) =>
    case RedirNode(cmd, _, _, _) =>
      TreeGrown(a, b, cmd);
    case PipeNode(left, right) =>
      TreeGrown(a, b, left);
      TreeGrown(a, b, right);
    case ListNode(left, right) =>
      TreeGrown(a, b, left);
      TreeGrown(a, b, right);
    case BackNode(cmd) =>
      TreeGrown(a, b, cmd);
  }

  // Redirections built around a node.

  function RedirOf(cmd: int, r: Redirect<Span>): Node {
    if r.op == '<' then RedirNode(cmd, r.file, O_RDONLY, 0) else RedirNode(cmd, r.file, O_WRONLY_CREATE, 1)
  }

  /** From `top`, one redirection after another leads down to `base`. */
  ghost predicate Chained(nodes: seq<Node>, top: int, base: int, rs: seq<Redirect<Span>>)
    decreases |rs|
  {
    if rs == [] then top == base
    else 0 <= top < |nodes| && nodes[top].RedirNode? && nodes[top] == RedirOf(nodes[top].cmd, rs[|rs| - 1])
         && Chained(nodes, nodes[top].cmd, base, rs[..|rs| - 1])
  }

  lemma {:induction false} WrapSnoc<W>(c: Cmd<W>, rs: seq<Redirect<W>>, r: Redirect<W>)
    ensures Wrap(c, rs + [r]) == Redirected(Wrap(c, rs), r)
    decreases |rs|
  {
    if rs == [] {
      assert rs + [r] == [r];
      assert Wrap(c, [r]) == Wrap(Redirected(c, r), []);
    } else {
      assert (rs + [r])[1..] == rs[1..] + [r];
      WrapSnoc(Redirected(c, rs[0]), rs[1..], r);
    }
  }

  lemma {:induction false} ChainTree(nodes: seq<Node>, top: int, base: int, rs: seq<Redirect<Span>>)
    requires Arena(nodes) && 0 <= base < |nodes| && 0 <= top < |nodes| && Chained(nodes, top, base, rs)
    ensures Tree(nodes, top) == Wrap(Tree(nodes, base), rs)
    decreases |rs|
  {
    if rs != [] {
      var init, r := rs[..|rs| - 1], rs[|rs| - 1];
      assert rs == init + [r];
      assert Below(nodes[top], top);
      ChainTree(nodes, nodes[top].cmd, base, init);
      WrapSnoc(Tree(nodes, base), init, r);
    }
  }

  lemma {:induction false} ChainGrown(a: seq<Node>, b: seq<Node>, top: int, base: int, rs: seq<Redirect<Span>>)
    requires Chained(a, top, base, rs) && Grown(a, b)
    ensures Chained(b, top, base, rs)
    decreases |rs|
  {
    if rs != [] {
      ChainGrown(a, b, a[top].cmd, base, rs[..|rs| - 1]);
    }
  }

  /** Filling in the words of the command at the bottom of the chain. */
  lemma {:induction false} ChainFilled(nodes: seq<Node>, top: int, base: int, rs: seq<Redirect<Span>>, argv: seq<Span>)
    requires Chained(nodes, top, base, rs) && 0 <= base < |nodes| && nodes[base].ExecNode?
    ensures Chained(nodes[base := ExecNode(argv)], top, base, rs)
    decreases |rs|
  {
    if rs != [] {
      ChainFilled(nodes, nodes[top].cmd, base, rs[..|rs| - 1], argv);
    }
  }

  lemma {:induction false} ChainConcat(nodes: seq<Node>, top: int, mid: int, base: int, a: seq<Redirect<Span>>,
                                       b: seq<Redirect<Span>>)
    requires Chained(nodes, mid, base, a) && Chained(nodes, top, mid, b)
    ensures Chained(nodes, top, base, a + b)
    decreases |b|
  {
    if b == [] {
      assert a + b == a;
    } else {
      var c := a + b;
      assert c[..|c| - 1] == a + b[..|b| - 1] && c[|c| - 1] == b[|b| - 1];
      ChainConcat(nodes, nodes[top].cmd, mid, base, a, b[..|b| - 1]);
    }
  }

  lemma ChainSnoc(nodes: seq<Node>, top: int, base: int, rs: seq<Redirect<Span>>, r: Redirect<Span>)
    requires Chained(nodes, top, base, rs)
    ensures Chained(nodes + [RedirOf(top, r)], |nodes|, base, rs + [r])
  {
    var nodes' := nodes + [RedirOf(top, r)];
    ChainGrown(nodes, nodes', top, base, rs);
    assert (rs + [r])[..|rs|] == rs;
  }

  // Tokens and string ends.

  /** A maximal run of word characters. */
  ghost predicate IsToken(s: string, w: Span) {
    && 0 <= w.q < w.eq <= |s|
    && (forall k :: w.q <= k < w.eq ==> WordChar(s[k]))
    && (w.eq < |s| ==> !WordChar(s[w.eq]))
  }

  ghost predicate NodeTokens(s: string, n: Node) {
    match n
    case ExecNode(argv) => forall i :: 0 <= i < |argv| ==> IsToken(s, argv[i])
    case RedirNode(_, file, _, _) => IsToken(s, file)
    case _ => true
  }

  /** The words of a command. */
  ghost predicate Uses(c: Cmd<Span>, w: Span) {
    match c
    case Exec(argv) => w in argv
    case Redir(sub, file, _, _) => w == file || Uses(sub, w)
    case Pipe(left, right) => Uses(left, w) || Uses(right, w)
    case List(left, right) => Uses(left, w) || Uses(right, w)
    case Back(sub) => Uses(sub, w)
  }

  /** The characters where nulterminate stores a NUL. */
  ghost predicate Ending(c: Cmd<Span>, k: int) {
    match c
    case Exec(argv) => exists i :: 0 <= i < |argv| && argv[i].eq == k
    case Redir(sub, file, _, _) => file.eq == k || Ending(sub, k)
    case Pipe(left, right) => Ending(left, k) || Ending(right, k)
    case List(left, right) => Ending(left, k) || Ending(right, k)
    case Back(sub) => Ending(sub, k)
  }

  lemma {:induction false} UsesToken(s: string, nodes: seq<Node>, i: int, w: Span)
    requires Arena(nodes) && 0 <= i < |nodes| && (forall j :: 0 <= j < |nodes| ==> NodeTokens(s, nodes[j]))
    requires Uses(Tree(nodes, i), w)
    ensures IsToken(s, w) && Ending(Tree(nodes, i), w.eq)
    decreases i
  {
    hide IsToken;
    assert Below(nodes[i], i) && NodeTokens(s, nodes[i]);
    match nodes[i]
    case ExecNode(argv) =>
    case RedirNode(cmd, file, _, _) =>
      if w != file {
        UsesToken(s, nodes, cmd, w);
      }
    case PipeNode(left, right) =>
      UsesToken(s, nodes, if Uses(Tree(nodes, left), w) then left else right, w);
    case ListNode(left, right) =>
      UsesToken(s, nodes, if Uses(Tree(nodes, left), w) then left else right, w);
    case BackNode(cmd) =>
      UsesToken(s, nodes, cmd, w);
  }

  lemma {:induction false} EndingOutside(s: string, nodes: seq<Node>, i: int, k: int)
    requires Arena(nodes) && 0 <= i < |nodes| && (forall j :: 0 <= j < |nodes| ==> NodeTokens(s, nodes[j]))
    requires Ending(Tree(nodes, i), k)
    ensures 0 < k <= |s| && (k < |s| ==> !WordChar(s[k]))
    decreases i
  {
    assert Below(nodes[i], i) && NodeTokens(s, nodes[i]);
    match nodes[i]
    case ExecNode(argv) =>
    case RedirNode(cmd, file, _, _) =>
      if file.eq != k {
        EndingOutside(s, nodes, cmd, k);
      }
    case PipeNode(left, right) =>
      EndingOutside(s, nodes, if Ending(Tree(nodes, left), k) then left else right, k);
    case ListNode(left, right) =>
      EndingOutside(s, nodes, if Ending(Tree(nodes, left), k) then left else right, k);
    case BackNode(cmd) =>
      EndingOutside(s, nodes, cmd, k);
  }
}
