/** The binary tree kept in one array, and the parsers that fill it with an expression
    (`libmamba/include/mamba/util/flat_binary_tree.hpp`, `flat_bool_expr_tree.hpp`). */
module ExprTree {
  import opened Wrappers

  // ---------- trees ----------

  datatype Tree<V, O> = Leaf(v: V) | Branch(op: O, left: Tree<V, O>, right: Tree<V, O>)

  /** A node of the array; a branch names its children by their indices. */
  datatype Node<V, O> = LeafNode(v: V) | BranchNode(op: O, left: nat, right: nat)

  /** Children were added before their parents. */
  ghost predicate WellFormed<V, O>(nodes: seq<Node<V, O>>) {
    forall i :: 0 <= i < |nodes| && nodes[i].BranchNode? ==> nodes[i].left < i && nodes[i].right < i
  }

  /** The tree below an index. */
  ghost function TreeAt<V, O>(nodes: seq<Node<V, O>>, i: nat): Tree<V, O>
    requires WellFormed(nodes) && i < |nodes|
    decreases i
  {
    match nodes[i]
    case LeafNode(v) => Leaf(v)
    case BranchNode(op, l, r) => Branch(op, TreeAt(nodes, l), TreeAt(nodes, r))
  }

  lemma {:induction false} TreeAtGrows<V, O>(nodes: seq<Node<V, O>>, n: Node<V, O>, i: nat)
    requires WellFormed(nodes) && WellFormed(nodes + [n]) && i < |nodes|
    ensures TreeAt(nodes + [n], i) == TreeAt(nodes, i)
    decreases i
  {
    assert (nodes + [n])[i] == nodes[i];
    if nodes[i].BranchNode? {
      TreeAtGrows(nodes, n, nodes[i].left);
      TreeAtGrows(nodes, n, nodes[i].right);
    }
  }

  class FlatTree<V, O> {
    var nodes: seq<Node<V, O>>
    var root: nat

    constructor ()
      ensures nodes == [] && root == 0
    {
      nodes, root := [], 0;
    }

    method AddLeaf(v: V) returns (idx: nat)
      requires WellFormed(nodes)
      modifies this
      ensures WellFormed(nodes) && nodes == old(nodes) + [LeafNode(v)]
      ensures idx == |old(nodes)| && root == old(root)
    {
      nodes := nodes + [LeafNode(v)];
      idx := |nodes| - 1;
    }

    /** A parent of the root is the new root. */
    method AddBranch(op: O, left: nat, right: nat) returns (idx: nat)
      requires WellFormed(nodes) && left < |nodes| && right < |nodes|
      modifies this
      ensures WellFormed(nodes) && nodes == old(nodes) + [BranchNode(op, left, right)]
      ensures idx == |old(nodes)|
      ensures root == if left == old(root) || right == old(root) then idx else old(root)
    {
      nodes := nodes + [BranchNode(op, left, right)];
      idx := |nodes| - 1;
      if left == root || right == root {
        root := idx;
      }
    }
  }

  // ---------- postfix expressions ----------

  predicate InRange(idxs: seq<nat>, n: nat) {
    forall k :: 0 <= k < |idxs| ==> idxs[k] < n
  }

  ghost function TreesAt<V, O>(nodes: seq<Node<V, O>>, idxs: seq<nat>): (ts: seq<Tree<V, O>>)
    requires WellFormed(nodes) && InRange(idxs, |nodes|)
    ensures |ts| == |idxs|
  {
    seq(|idxs|, i requires 0 <= i < |idxs| => TreeAt(nodes, idxs[i]))
  }

  lemma TreesAtGrows<V, O>(nodes: seq<Node<V, O>>, n: Node<V, O>, idxs: seq<nat>)
    requires WellFormed(nodes) && WellFormed(nodes + [n]) && InRange(idxs, |nodes|)
    ensures TreesAt(nodes + [n], idxs) == TreesAt(nodes, idxs)
  {
    forall k | 0 <= k < |idxs|
      ensures TreesAt(nodes + [n], idxs)[k] == TreesAt(nodes, idxs)[k]
    {
      TreeAtGrows(nodes, n, idxs[k]);
    }
  }

  lemma TreesAtLast<V, O>(nodes: seq<Node<V, O>>, idxs: seq<nat>, i: nat)
    requires WellFormed(nodes) && i < |nodes| && InRange(idxs, |nodes|)
    ensures TreesAt(nodes, idxs + [i]) == TreesAt(nodes, idxs) + [TreeAt(nodes, i)]
  {
  }

  lemma TreesAtFirst<V, O>(nodes: seq<Node<V, O>>, idxs: seq<nat>, n: nat)
    requires WellFormed(nodes) && n <= |idxs| && InRange(idxs, |nodes|)
    ensures TreesAt(nodes, idxs[..n]) == TreesAt(nodes, idxs)[..n]
  {
  }

  /** Trees without a parent, with the last two put below an operator. */
  function Joined<V, O>(orphans: seq<Tree<V, O>>, op: O): Option<seq<Tree<V, O>>> {
    var n := |orphans|;
    if n < 2 then None else Some(orphans[..n - 2] + [Branch(op, orphans[n - 2], orphans[n - 1])])
  }

  class PostfixParser<V, O> {
    const tree: FlatTree<V, O>
    var orphans: seq<nat>

    /** The orphans stand in the order in which they were made, and the first is the root. */
    ghost predicate Valid()
      reads this, tree
    {
      && WellFormed(tree.nodes)
      && InRange(orphans, |tree.nodes|)
      && (forall i, j :: 0 <= i < j < |orphans| ==> orphans[i] < orphans[j])
      && (orphans == [] <==> tree.nodes == [])
      && tree.root == if orphans == [] then 0 else orphans[0]
    }

    ghost function Orphans(): seq<Tree<V, O>>
      requires Valid()
      reads this, tree
    {
      TreesAt(tree.nodes, orphans)
    }

    constructor ()
      ensures Valid() && fresh(tree) && orphans == []
    {
      tree := new FlatTree();
      orphans := [];
    }

    method PushVariable(v: V)
      requires Valid()
      modifies this, tree
      ensures Valid() && Orphans() == old(Orphans()) + [Leaf(v)]
    {
      ghost var before, nodes := orphans, tree.nodes;
      var idx := tree.AddLeaf(v);
      orphans := orphans + [idx];
      TreesAtGrows(nodes, LeafNode(v), before);
      TreesAtLast(tree.nodes, before, idx);
    }

    method PushOperator(op: O) returns (ok: bool)
      requires Valid()
      modifies this, tree
      ensures Valid()
      ensures match Joined(old(Orphans()), op)
              case Some(ts) => ok && Orphans() == ts
              case None => !ok && Orphans() == old(Orphans())
    {
      var n := |orphans|;
      if n < 2 {
        return false;
      }
      ghost var nodes, rest := tree.nodes, orphans[..n - 2];
      var right, left := orphans[n - 1], orphans[n - 2];
      var idx := tree.AddBranch(op, left, right);
      orphans := orphans[..n - 2] + [idx];
      TreesAtFirst(nodes, old(orphans), n - 2);
      TreesAtGrows(nodes, BranchNode(op, left, right), rest);
      TreeAtGrows(nodes, BranchNode(op, left, right), left);
      TreeAtGrows(nodes, BranchNode(op, left, right), right);
      TreesAtLast(tree.nodes, rest, idx);
      return true;
    }

    method Finalize() returns (ok: bool)
      requires Valid()
      ensures ok <==> |orphans| <= 1
    {
      return (|orphans| == 1 && tree.nodes != []) || (orphans == [] && tree.nodes == []);
    }
  }

  // ---------- infix expressions, on values ----------

  datatype Token<V, O> = Variable(v: V) | Operator(op: O) | Left | Right

  /** What waits on the operator stack. */
  datatype Item<O> = Op(op: O) | LeftParen

  datatype State<V, O> = State(orphans: seq<Tree<V, O>>, ops: seq<Item<O>>, level: nat, expectsOp: bool)

  function Start<V, O>(): State<V, O> {
    State([], [], 0, false)
  }

  /** Operators are taken from the stack, and their operands joined, as long as they satisfy `p`. */
  function Pops<V, O>(orphans: seq<Tree<V, O>>, ops: seq<Item<O>>, p: O -> bool)
      : Option<(seq<Tree<V, O>>, seq<Item<O>>)>
    decreases |ops|
  {
    var n := |ops|;
    if n == 0 || ops[n - 1].LeftParen? || !p(ops[n - 1].op) then Some((orphans, ops))
    else
      match Joined(orphans, ops[n - 1].op)
      case None => None
      case Some(ts) => Pops(ts, ops[..n - 1], p)
  }

  function Any<O>(op: O): bool {
    true
  }

  function AfterVariable<V, O>(s: State<V, O>, v: V): Option<State<V, O>> {
    if s.expectsOp then None else Some(s.(orphans := s.orphans + [Leaf(v)], expectsOp := true))
  }

  /** Operators that bind more tightly are taken from the stack first. */
  function AfterOperator<V, O>(less: (O, O) -> bool, s: State<V, O>, op: O): Option<State<V, O>> {
    if !s.expectsOp then None
    else
      match Pops(s.orphans, s.ops, top => less(op, top))
      case None => None
      case Some((ts, ops)) => Some(State(ts, ops + [Op(op)], s.level, false))
  }

  function AfterLeft<V, O>(s: State<V, O>): Option<State<V, O>> {
    if s.expectsOp then None else Some(s.(ops := s.ops + [LeftParen], level := s.level + 1))
  }

  function AfterRight<V, O>(s: State<V, O>): Option<State<V, O>> {
    if !s.expectsOp || s.level == 0 then None
    else
      match Pops(s.orphans, s.ops, Any)
      case None => None
      case Some((ts, ops)) => if ops == [] then None else Some(State(ts, ops[..|ops| - 1], s.level - 1, true))
  }

  function Step<V, O>(less: (O, O) -> bool, s: State<V, O>, t: Token<V, O>): Option<State<V, O>> {
    match t
    case Variable(v) => AfterVariable(s, v)
    case Operator(op) => AfterOperator(less, s, op)
    case Left => AfterLeft(s)
    case Right => AfterRight(s)
  }

  /** The tokens in order; the first that is refused ends the run. */
  function Run<V, O>(less: (O, O) -> bool, ts: seq<Token<V, O>>): Option<State<V, O>> {
    if ts == [] then Some(Start())
    else
      match Run(less, ts[..|ts| - 1])
      case None => None
      case Some(s) => Step(less, s, ts[|ts| - 1])
  }

  /** The tree of a complete expression; none for the empty one. */
  function Finish<V, O>(s: State<V, O>): Option<Option<Tree<V, O>>> {
    if s.orphans == [] && s.ops == [] then Some(None)
    else if !s.expectsOp || s.level != 0 then None
    else
      match Pops(s.orphans, s.ops, Any)
      case None => None
      case Some((ts, _)) => if |ts| == 1 then Some(Some(ts[0])) else if ts == [] then Some(None) else None
  }

  function Parsed<V, O>(less: (O, O) -> bool, ts: seq<Token<V, O>>): Option<Option<Tree<V, O>>> {
    match Run(less, ts)
    case None => None
    case Some(s) => Finish(s)
  }

  function Parens<O>(ops: seq<Item<O>>): nat {
    if ops == [] then 0 else Parens(ops[..|ops| - 1]) + if ops[|ops| - 1].LeftParen? then 1 else 0
  }

  lemma ParensNext<O>(ops: seq<Item<O>>, x: Item<O>)
    ensures Parens(ops + [x]) == Parens(ops) + if x.LeftParen? then 1 else 0
  {
    assert (ops + [x])[..|ops|] == ops;
  }

  // ---------- the infix parser ----------

  class InfixParser<V, O> {
    const less: (O, O) -> bool
    const postfix: PostfixParser<V, O>
    var opStack: seq<Item<O>>
    var level: nat
    var expectsOp: bool

    /** The level is the number of open parentheses on the stack. */
    ghost predicate Valid()
      reads this, postfix, postfix.tree
    {
      postfix.Valid() && level == Parens(opStack)
    }

    ghost function View(): State<V, O>
      requires Valid()
      reads this, postfix, postfix.tree
    {
      State(postfix.Orphans(), opStack, level, expectsOp)
    }

    constructor (less: (O, O) -> bool)
      ensures Valid() && View() == Start() && this.less == less
      ensures fresh(postfix) && fresh(postfix.tree)
    {
      this.less := less;
      postfix := new PostfixParser();
      opStack, level, expectsOp := [], 0, false;
    }

    method PushVariable(v: V) returns (ok: bool)
      requires Valid()
      modifies this, postfix, postfix.tree
      ensures Valid()
      ensures match AfterVariable(old(View()), v)
              case Some(s) => ok && View() == s
              case None => !ok
    {
      if expectsOp {
        return false;
      }
      expectsOp := true;
      postfix.PushVariable(v);
      return true;
    }

    /** Take one operator from the stack and give it to the postfix parser. */
    method PopOne() returns (ok: bool)
      requires Valid() && opStack != [] && opStack[|opStack| - 1].Op?
      modifies this`opStack, postfix, postfix.tree
      ensures Valid() && opStack == old(opStack)[..|old(opStack)| - 1]
      ensures match Joined(old(postfix.Orphans()), old(opStack)[|old(opStack)| - 1].op)
              case Some(ts) => ok && postfix.Orphans() == ts
              case None => !ok
    {
      var op := opStack[|opStack| - 1].op;
      opStack := opStack[..|opStack| - 1];
      ok := postfix.PushOperator(op);
    }

    /** Operators that bind more tightly go first. */
    method PopTighter(op: O) returns (ok: bool)
      requires Valid()
      modifies this`opStack, postfix, postfix.tree
      ensures Valid()
      ensures match Pops(old(postfix.Orphans()), old(opStack), top => less(op, top))
              case Some((ts, ops)) => ok && postfix.Orphans() == ts && opStack == ops
              case None => !ok
    {
      ghost var p := (top: O) => less(op, top);
      while |opStack| > 0 && opStack[|opStack| - 1].Op? && less(op, opStack[|opStack| - 1].op)
        invariant Valid()
        invariant Pops(postfix.Orphans(), opStack, p) == Pops(old(postfix.Orphans()), old(opStack), p)
        decreases |opStack|
      {
        var pushed := PopOne();
        if !pushed {
          return false;
        }
      }
      return true;
    }

    method PushOperator(op: O) returns (ok: bool)
      requires Valid()
      modifies this, postfix, postfix.tree
      ensures Valid()
      ensures match AfterOperator(less, old(View()), op)
              case Some(s) => ok && View() == s
              case None => !ok
    {
      if !expectsOp {
        return false;
      }
      expectsOp := false;
      ok := PopTighter(op);
      if ok {
        ParensNext(opStack, Op(op));
        opStack := opStack + [Op(op)];
      }
    }

    method PushLeft() returns (ok: bool)
      requires Valid()
      modifies this
      ensures Valid()
      ensures match AfterLeft(old(View()))
              case Some(s) => ok && View() == s
              case None => !ok
    {
      if expectsOp {
        return false;
      }
      level := level + 1;
      ParensNext(opStack, LeftParen);
      opStack := opStack + [LeftParen];
      return true;
    }

    /** The level says that a parenthesis is on the stack, so the loop does not empty it. */
    method PushRight() returns (ok: bool)
      requires Valid()
      modifies this, postfix, postfix.tree
      ensures Valid()
      ensures match AfterRight(old(View()))
              case Some(s) => ok && View() == s
              case None => !ok
    {
      if !expectsOp || level == 0 {
        return false;
      }
      while !opStack[|opStack| - 1].LeftParen?
        invariant Valid() && level == old(level) && expectsOp && opStack != []
        invariant Pops(postfix.Orphans(), opStack, Any) == Pops(old(postfix.Orphans()), old(opStack), Any)
        decreases |opStack|
      {
        var pushed := PopOne();
        if !pushed {
          return false;
        }
      }
      level := level - 1;
      opStack := opStack[..|opStack| - 1];
      return true;
    }

    method Finalize() returns (ok: bool)
      requires Valid()
      modifies this, postfix, postfix.tree
      ensures Valid()
      ensures match Finish(old(View()))
              case Some(None) => ok && postfix.tree.nodes == []
              case Some(Some(t)) =>
                ok && postfix.tree.root < |postfix.tree.nodes| && TreeAt(postfix.tree.nodes, postfix.tree.root) == t
              case None => !ok
    {
      if postfix.tree.nodes == [] && opStack == [] {
        return true;
      }
      if !expectsOp || level != 0 {
        return false;
      }
      while opStack != []
        invariant Valid() && level == 0
        invariant Pops(postfix.Orphans(), opStack, Any) == Pops(old(postfix.Orphans()), old(opStack), Any)
        decreases |opStack|
      {
        var pushed := PopOne();
        if !pushed {
          return false;
        }
      }
      ok := postfix.Finalize();
      assert |postfix.orphans| == 1 ==> postfix.Orphans()[0] == TreeAt(postfix.tree.nodes, postfix.tree.root);
    }

    method Push(t: Token<V, O>) returns (ok: bool)
      requires Valid()
      modifies this, postfix, postfix.tree
      ensures Valid()
      ensures match Step(less, old(View()), t)
              case Some(s) => ok && View() == s
              case None => !ok
    {
      match t
      case Variable(v) => ok := PushVariable(v);
      case Operator(op) => ok := PushOperator(op);
      case Left => ok := PushLeft();
      case Right => ok := PushRight();
    }
  }

  /** Parse a list of tokens, as a version spec is parsed. The root of the tree is the expression. */
  method Parse<V, O>(less: (O, O) -> bool, ts: seq<Token<V, O>>) returns (tree: Option<FlatTree<V, O>>)
    ensures match Parsed(less, ts)
            case None => tree == None
            case Some(None) => tree.Some? && tree.value.nodes == []
            case Some(Some(t)) =>
              && tree.Some? && WellFormed(tree.value.nodes) && tree.value.root < |tree.value.nodes|
              && TreeAt(tree.value.nodes, tree.value.root) == t
  {
    var parser := new InfixParser(less);
    for i := 0 to |ts|
      invariant parser.Valid() && fresh(parser) && fresh(parser.postfix) && fresh(parser.postfix.tree)
      invariant parser.less == less
      invariant Run(less, ts[..i]) == Some(parser.View())
      invariant Run(less, ts).Some? ==> Run(less, ts[..i]).Some?
    {
      RunNext(less, ts, i);
      var ok := parser.Push(ts[i]);
      if !ok {
        return None;
      }
    }
    assert ts[..|ts|] == ts;
    var ok := parser.Finalize();
    return if ok then Some(parser.postfix.tree) else None;
  }

  /** A run is refused if its beginning is. */
  lemma {:induction false} RunNext<V, O>(less: (O, O) -> bool, ts: seq<Token<V, O>>, i: nat)
    requires i < |ts|
    ensures Run(less, ts[..i + 1]) == match Run(less, ts[..i])
                                      case None => None
                                      case Some(s) => Step(less, s, ts[i])
    ensures Run(less, ts[..i + 1]).None? ==> Run(less, ts).None?
    decreases |ts|
  {
    assert ts[..i + 1][..i] == ts[..i];
    if i + 1 < |ts| {
      var before := ts[..|ts| - 1];
      assert before[..i + 1] == ts[..i + 1] && before[..i] == ts[..i];
      RunNext(less, before, i);
    } else {
      assert ts[..i + 1] == ts;
    }
  }
}
