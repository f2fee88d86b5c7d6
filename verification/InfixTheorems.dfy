/** What the infix parser makes of its tokens: the one reading that the precedence of the operators
    leaves. */
module InfixTheorems {
  import opened Wrappers
  import opened Sequences
  import opened ExprTree
  import opened InfixGrammar

  // ---------- acceptance ----------

  /** An expression that spells the tokens and is grouped as the precedence says. */
  predicate Reading<V(==), O(==)>(less: (O, O) -> bool, e: Expr<V, O>, ts: seq<Token<V, O>>) {
    Canonical(less, e) && Flatten(e) == ts
  }

  /** A complete run ends with one tree, that of a canonical expression which spells the tokens. */
  lemma FinishReads<V, O>(less: (O, O) -> bool, s: State<V, O>, fs: Frames<V, O>, c: Expr<V, O>,
                          ts: seq<Token<V, O>>) returns (e: Expr<V, O>)
    requires Represents(less, s, fs, Some(c), ts) && s.level == 0
    ensures Finish(s) == Some(Some(Strip(e))) && Reading(less, e, ts)
  {
    var orphans, below;
    orphans, below, e := PopsHold(less, s.orphans, fs, c, ts, Any);
    assert below.Bottom?;
    assert FramesText(below) + Flatten(e) == Flatten(e);
  }

  lemma FinishFails<V, O>(less: (O, O) -> bool, s: State<V, O>, fs: Frames<V, O>, c: Option<Expr<V, O>>,
                          ts: seq<Token<V, O>>)
    requires Represents(less, s, fs, c, ts) && ts != [] && (c.None? || s.level != 0)
    ensures Finish(s) == None
  {
  }

  /** Soundness: a tree is made only of the tokens of an expression, and it is the tree of a canonical
      one. */
  lemma ParsedIsCanonical<V(!new), O(!new)>(less: (O, O) -> bool, ts: seq<Token<V, O>>)
    requires Parsed(less, ts).Some? && ts != []
    ensures exists e :: Reading(less, e, ts) && Parsed(less, ts) == Some(Some(Strip(e)))
  {
    var fs, c := RunRepresents(less, ts);
    var s := Run(less, ts).value;
    if c.Some? && s.level == 0 {
      var e := FinishReads(less, s, fs, c.value, ts);
    } else {
      FinishFails(less, s, fs, c, ts);
    }
  }

  /** Every expression of the grammar is accepted, however its operators are grouped. */
  lemma ExprIsAccepted<V, O>(less: (O, O) -> bool, e: Expr<V, O>)
    ensures Parsed(less, Flatten(e)).Some?
  {
    var ts := Flatten(e);
    ExprMoves(0, e);
    var fs, c := RunRepresents(less, ts);
    var r := FinishReads(less, Run(less, ts).value, fs, c.value, ts);
  }

  /** For every list of tokens and whatever the precedence: all pushes and the final call succeed if
      and only if the tokens are those of an infix expression, or there are none. */
  lemma AcceptedIffGrammar<V(!new), O(!new)>(less: (O, O) -> bool, ts: seq<Token<V, O>>)
    ensures Parsed(less, ts).Some? <==> ts == [] || exists e :: Flatten(e) == ts
  {
    if ts != [] {
      if Parsed(less, ts).Some? {
        ParsedIsCanonical(less, ts);
        var e :| Reading(less, e, ts) && Parsed(less, ts) == Some(Some(Strip(e)));
        assert Flatten(e) == ts;
      }
      if e :| Flatten(e) == ts {
        ExprIsAccepted(less, e);
      }
    }
  }

  // ---------- there is only one reading ----------

  /** What a comparison of precedences must be: a strict weak ordering. */
  ghost predicate IsPrecedence<O(!new)>(less: (O, O) -> bool) {
    && (forall a, b :: less(a, b) ==> !less(b, a))
    && (forall a, b, c :: less(a, b) ==> less(a, c) || less(c, b))
  }

  /** An operator outside all parentheses. */
  predicate TopOp<V, O(==)>(ts: seq<Token<V, O>>, i: nat, op: O) {
    && i < |ts| && ts[i].Operator? && ts[i].op == op
    && Moves(Place(0, false), ts[..i]) == Some(Place(0, true))
  }

  lemma {:induction false} MovesOfPrefix<V, O>(at: Place, ts: seq<Token<V, O>>, i: nat)
    requires i <= |ts| && Moves(at, ts).Some?
    ensures Moves(at, ts[..i]).Some?
  {
    assert ts == ts[..i] + ts[i..];
    MovesConcat(at, ts[..i], ts[i..]);
  }

  lemma {:induction false} MovesDeeper<V, O>(at: Place, ts: seq<Token<V, O>>)
    requires Moves(at, ts).Some?
    ensures var p := Moves(at, ts).value;
            Moves(at.(level := at.level + 1), ts) == Some(p.(level := p.level + 1))
  {
    if ts != [] {
      MovesDeeper(at, ts[..|ts| - 1]);
    }
  }

  /** Inside parentheses there is no operator outside of them. */
  lemma NoTopOpInParen<V, O>(inner: Expr<V, O>, i: nat, op: O)
    ensures !TopOp(Flatten(Paren(inner)), i, op)
  {
    var ts, mid := Flatten(Paren(inner)), Flatten(inner);
    var open: seq<Token<V, O>> := [Left];
    if 0 < i <= |mid| {
      assert ts[..i] == open + mid[..i - 1];
      MovesConcat(Place(0, false), open, mid[..i - 1]);
      MovesOne(Place(0, false), Token<V, O>.Left);
      ExprMoves(0, inner);
      MovesOfPrefix(Place(0, false), mid, i - 1);
      MovesDeeper(Place(0, false), mid[..i - 1]);
    }
  }

  lemma TopOpInBinary<V, O>(e: Expr<V, O>, i: nat, op: O)
    requires e.Binary? && TopOp(Flatten(e), i, op)
    ensures var n := |Flatten(e.left)|;
            && (i < n ==> TopOp(Flatten(e.left), i, op))
            && (i == n ==> op == e.op)
            && (i > n ==> TopOp(Flatten(e.right), i - n - 1, op))
  {
    var l, r, ts := Flatten(e.left), Flatten(e.right), Flatten(e);
    var n := |l|;
    if i < n {
      assert ts[..i] == l[..i];
    } else if i > n {
      var sign: seq<Token<V, O>> := [Operator(e.op)];
      assert ts[..i] == l + sign + r[..i - n - 1];
      assert ts[i] == r[i - n - 1];
      BehindOperator(e.left, e.op, r[..i - n - 1]);
    }
  }

  /** Behind an operand and an operator the parser stands where it stood in front. */
  lemma BehindOperator<V, O>(l: Expr<V, O>, op: O, ts: seq<Token<V, O>>)
    ensures Moves(Place(0, false), Flatten(l) + [Operator(op)] + ts) == Moves(Place(0, false), ts)
  {
    var sign: seq<Token<V, O>> := [Operator(op)];
    ExprMoves(0, l);
    MovesOne(Place(0, true), Token<V, O>.Operator(op));
    MovesConcat(Place(0, false), Flatten(l), sign);
    MovesConcat(Place(0, false), Flatten(l) + sign, ts);
  }

  /** The root of a canonical expression is the first of its loosest operators outside parentheses. */
  lemma {:induction false} RootIsLoosest<V, O(!new)>(less: (O, O) -> bool, e: Expr<V, O>, i: nat, op: O)
    requires IsPrecedence(less) && Canonical(less, e) && TopOp(Flatten(e), i, op)
    ensures e.Binary? && !less(op, e.op)
    ensures i < |Flatten(e.left)| ==> less(e.op, op)
    decreases e
  {
    match e
    case Atom(_) =>
    case Paren(inner) => NoTopOpInParen(inner, i, op);
    case Binary(l, o, r) =>
      var n := |Flatten(l)|;
      TopOpInBinary(e, i, op);
      if i < n {
        RootIsLoosest(less, l, i, op);
        var x := l.op;
        assert less(o, x) && !less(op, x);
        assert less(o, op) || less(op, x);
      } else if i > n {
        RootIsLoosest(less, r, i - n - 1, op);
        var x := r.op;
        assert !less(op, x) && !less(x, o);
        assert less(op, o) ==> less(op, x) || less(x, o);
      } else {
        assert less(o, o) ==> !less(o, o);
      }
  }

  lemma RootIsTop<V, O>(e: Expr<V, O>)
    requires e.Binary?
    ensures TopOp(Flatten(e), |Flatten(e.left)|, e.op)
  {
    var l := Flatten(e.left);
    assert Flatten(e)[..|l|] == l;
    ExprMoves(0, e.left);
  }

  /** Two canonical expressions with the same tokens have their root at the same place. */
  lemma SameRoot<V, O(!new)>(less: (O, O) -> bool, e: Expr<V, O>, f: Expr<V, O>)
    requires IsPrecedence(less) && Canonical(less, e) && Canonical(less, f) && Flatten(e) == Flatten(f)
    requires e.Binary?
    ensures f.Binary? && |Flatten(e.left)| == |Flatten(f.left)|
  {
    RootIsTop(e);
    RootIsLoosest(less, f, |Flatten(e.left)|, e.op);
    RootIsTop(f);
    RootIsLoosest(less, e, |Flatten(f.left)|, f.op);
  }

  /** The grammar with precedence is unambiguous. */
  lemma {:induction false} OneReading<V, O(!new)>(less: (O, O) -> bool, e: Expr<V, O>, f: Expr<V, O>)
    requires IsPrecedence(less) && Canonical(less, e) && Canonical(less, f) && Flatten(e) == Flatten(f)
    ensures e == f
    decreases e
  {
    if e.Binary? {
      SameRoot(less, e, f);
      var n, ts := |Flatten(e.left)|, Flatten(e);
      assert ts[..n] == Flatten(e.left) && ts[..n] == Flatten(f.left);
      assert ts[n + 1..] == Flatten(e.right) && ts[n + 1..] == Flatten(f.right);
      assert ts[n] == Operator(e.op) && ts[n] == Operator(f.op);
      OneReading(less, e.left, f.left);
      OneReading(less, e.right, f.right);
    } else if f.Binary? {
      SameRoot(less, f, e);
    } else if e.Paren? && f.Paren? {
      assert Flatten(e)[1..|Flatten(e)| - 1] == Flatten(e.inner);
      assert Flatten(f)[1..|Flatten(f)| - 1] == Flatten(f.inner);
      OneReading(less, e.inner, f.inner);
    } else {
      assert Flatten(e)[0] == Flatten(f)[0];
    }
  }

  /** Completeness: the tokens of a canonical expression are read as its tree and no other. */
  lemma CanonicalIsRead<V(!new), O(!new)>(less: (O, O) -> bool, e: Expr<V, O>)
    requires IsPrecedence(less) && Canonical(less, e)
    ensures Parsed(less, Flatten(e)) == Some(Some(Strip(e)))
  {
    ExprIsAccepted(less, e);
    ParsedIsCanonical(less, Flatten(e));
    var f :| Reading(less, f, Flatten(e)) && Parsed(less, Flatten(e)) == Some(Some(Strip(f)));
    OneReading(less, e, f);
  }

  // ---------- printing and parsing again ----------

  /** An expression with parentheses around every operand that is not a variable. */
  function Shown<V, O>(t: Tree<V, O>): Expr<V, O>
    decreases t, 0
  {
    match t
    case Leaf(v) => Atom(v)
    case Branch(op, l, r) => Binary(Wrapped(l), op, Wrapped(r))
  }

  function Wrapped<V, O>(t: Tree<V, O>): Expr<V, O>
    decreases t, 1
  {
    if t.Leaf? then Shown(t) else Paren(Shown(t))
  }

  lemma {:induction false} ShownIsCanonical<V, O>(less: (O, O) -> bool, t: Tree<V, O>)
    ensures Canonical(less, Shown(t)) && Strip(Shown(t)) == t
  {
    if t.Branch? {
      ShownIsCanonical(less, t.left);
      ShownIsCanonical(less, t.right);
    }
  }

  /** The tokens that a visit of the array tree prints. */
  function Visit<V, O>(nodes: seq<Node<V, O>>, i: nat): (ts: seq<Token<V, O>>)
    requires WellFormed(nodes) && i < |nodes|
    ensures ts == Flatten(Shown(TreeAt(nodes, i)))
    decreases i
  {
    match nodes[i]
    case LeafNode(v) => [Variable(v)]
    case BranchNode(op, l, r) =>
      (if nodes[l].LeafNode? then Visit(nodes, l) else [Left] + Visit(nodes, l) + [Right])
      + [Operator(op)]
      + (if nodes[r].LeafNode? then Visit(nodes, r) else [Left] + Visit(nodes, r) + [Right])
  }

  /** Whatever tree the array holds and whatever the precedence, what is printed is parsed as the same
      tree again. */
  lemma PrintedIsRead<V(!new), O(!new)>(less: (O, O) -> bool, nodes: seq<Node<V, O>>, i: nat)
    requires IsPrecedence(less) && WellFormed(nodes) && i < |nodes|
    ensures Parsed(less, Visit(nodes, i)) == Some(Some(TreeAt(nodes, i)))
  {
    ShownIsCanonical(less, TreeAt(nodes, i));
    CanonicalIsRead(less, Shown(TreeAt(nodes, i)));
  }

  // ---------- three operands ----------

  /** Of two operators in a row the first is applied first if and only if the second is less. */
  lemma ThreeOperands<V(!new), O(!new)>(less: (O, O) -> bool, a: V, o: O, b: V, p: O, c: V)
    requires IsPrecedence(less)
    ensures Parsed(less, [Variable(a), Operator(o), Variable(b), Operator(p), Variable(c)])
         == Some(Some(if less(p, o) then Branch(p, Branch(o, Leaf(a), Leaf(b)), Leaf(c))
                      else Branch(o, Leaf(a), Branch(p, Leaf(b), Leaf(c)))))
  {
    var x, y, z: Expr<V, O> := Atom(a), Atom(b), Atom(c);
    var e := if less(p, o) then Binary(Binary(x, o, y), p, z) else Binary(x, o, Binary(y, p, z));
    assert Strip(Binary(x, o, y)) == Branch(o, Leaf(a), Leaf(b));
    assert Strip(Binary(y, p, z)) == Branch(p, Leaf(b), Leaf(c));
    assert Flatten(Binary(x, o, y)) == [Variable(a), Operator(o), Variable(b)];
    assert Flatten(Binary(y, p, z)) == [Variable(b), Operator(p), Variable(c)];
    assert Flatten(e) == [Variable(a), Operator(o), Variable(b), Operator(p), Variable(c)];
    CanonicalIsRead(less, e);
  }

  /** With operators that are characters, compared as such, `a + b * c` is not read with the product
      first. */
  lemma SumFirst(a: string, b: string, c: string)
    ensures Parsed((x: char, y: char) => x < y,
                   [Variable(a), Operator('+'), Variable(b), Operator('*'), Variable(c)])
         == Some(Some(Branch('*', Branch('+', Leaf(a), Leaf(b)), Leaf(c))))
  {
    ThreeOperands((x: char, y: char) => x < y, a, '+', b, '*', c);
  }

  // ---------- boolean expressions ----------

  /** In the order in which the source numbers them. */
  datatype BoolOperator = LogicalAnd | LogicalOr

  function ByNumber(a: BoolOperator, b: BoolOperator): bool {
    a == LogicalAnd && b == LogicalOr
  }

  function Eval<V>(t: Tree<V, BoolOperator>, value: V -> bool): bool {
    match t
    case Leaf(v) => value(v)
    case Branch(LogicalAnd, l, r) => Eval(l, value) && Eval(r, value)
    case Branch(LogicalOr, l, r) => Eval(l, value) || Eval(r, value)
  }

  /** The evaluation of the array tree. */
  function EvaluateAt<V>(nodes: seq<Node<V, BoolOperator>>, value: V -> bool, i: nat): (r: bool)
    requires WellFormed(nodes) && i < |nodes|
    ensures r == Eval(TreeAt(nodes, i), value)
    decreases i
  {
    match nodes[i]
    case LeafNode(v) => value(v)
    case BranchNode(op, l, r) =>
      if op == LogicalAnd then EvaluateAt(nodes, value, l) && EvaluateAt(nodes, value, r)
      else EvaluateAt(nodes, value, l) || EvaluateAt(nodes, value, r)
  }

  /** What a written boolean expression means, when it is grouped as it stands. */
  function Meaning<V>(e: Expr<V, BoolOperator>, value: V -> bool): bool {
    match e
    case Atom(v) => value(v)
    case Paren(inner) => Meaning(inner, value)
    case Binary(l, LogicalAnd, r) => Meaning(l, value) && Meaning(r, value)
    case Binary(l, LogicalOr, r) => Meaning(l, value) || Meaning(r, value)
  }

  lemma {:induction false} MeaningOfTree<V>(e: Expr<V, BoolOperator>, value: V -> bool)
    ensures Eval(Strip(e), value) == Meaning(e, value)
  {
    match e
    case Atom(_) =>
    case Paren(inner) => MeaningOfTree(inner, value);
    case Binary(l, _, r) =>
      MeaningOfTree(l, value);
      MeaningOfTree(r, value);
  }

  /** A boolean expression is evaluated as its canonical reading means. */
  method EvaluateTokens<V(!new)>(ts: seq<Token<V, BoolOperator>>, value: V -> bool, emptyValue: bool)
      returns (r: Option<bool>)
    ensures r.Some? <==> ts == [] || exists e :: Flatten(e) == ts
    ensures ts == [] ==> r == Some(emptyValue)
    ensures forall e :: Reading(ByNumber, e, ts) ==> r == Some(Meaning(e, value))
  {
    var tree := Parse(ByNumber, ts);
    AcceptedIffGrammar(ByNumber, ts);
    forall e | Reading(ByNumber, e, ts)
      ensures Parsed(ByNumber, ts) == Some(Some(Strip(e))) && Eval(Strip(e), value) == Meaning(e, value)
    {
      CanonicalIsRead(ByNumber, e);
      MeaningOfTree(e, value);
    }
    if tree.None? {
      return None;
    }
    if ts != [] {
      ParsedIsCanonical(ByNumber, ts);
    }
    if tree.value.nodes == [] {
      return Some(emptyValue);
    }
    return Some(EvaluateAt(tree.value.nodes, value, tree.value.root));
  }

  /** As `and` is numbered before `or`, `or` binds more tightly: `a or b and c` is `(a or b) and c`. It
      has another value than with `and` first if and only if `a` holds and `c` does not. */
  lemma OrBindsTighter<V(!new)>(a: V, b: V, c: V, value: V -> bool)
    ensures var ts := [Variable(a), Operator(LogicalOr), Variable(b), Operator(LogicalAnd), Variable(c)];
            && Parsed(ByNumber, ts).Some? && Parsed(ByNumber, ts).value.Some?
            && (Eval(Parsed(ByNumber, ts).value.value, value) != (value(a) || (value(b) && value(c)))
                <==> value(a) && !value(c))
  {
    ThreeOperands(ByNumber, a, LogicalOr, b, LogicalAnd, c);
    assert Eval(Branch(LogicalOr, Leaf(a), Leaf(b)), value) == (value(a) || value(b));
  }
}
