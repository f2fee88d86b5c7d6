/** The infix parser against its grammar: which token lists it accepts, and which tree it makes of
    them. */
module InfixGrammar {
  import opened Wrappers
  import opened Sequences
  import opened ExprTree

  // ---------- the grammar ----------

  /** An infix expression as it is written. */
  datatype Expr<V, O> =
    | Atom(v: V)
    | Paren(inner: Expr<V, O>)
    | Binary(left: Expr<V, O>, op: O, right: Expr<V, O>)

  function Flatten<V, O>(e: Expr<V, O>): (ts: seq<Token<V, O>>)
    ensures ts != []
  {
    match e
    case Atom(v) => [Variable(v)]
    case Paren(inner) => [Left] + Flatten(inner) + [Right]
    case Binary(l, op, r) => Flatten(l) + [Operator(op)] + Flatten(r)
  }

  /** The tree an expression stands for. */
  function Strip<V, O>(e: Expr<V, O>): Tree<V, O> {
    match e
    case Atom(v) => Leaf(v)
    case Paren(inner) => Strip(inner)
    case Binary(l, op, r) => Branch(op, Strip(l), Strip(r))
  }

  /** The operators of an expression are grouped as their precedence says: on the left of an operator
      stand only operators that bind more tightly, on its right none that bind less tightly, unless
      parentheses are around them. The lesser operator binds more loosely. */
  predicate Canonical<V, O>(less: (O, O) -> bool, e: Expr<V, O>) {
    match e
    case Atom(_) => true
    case Paren(inner) => Canonical(less, inner)
    case Binary(l, op, r) =>
      && Canonical(less, l) && Canonical(less, r)
      && LeftOf(less, l, op) && RightOf(less, op, r)
  }

  predicate LeftOf<V, O>(less: (O, O) -> bool, l: Expr<V, O>, op: O) {
    l.Binary? ==> less(op, l.op)
  }

  predicate RightOf<V, O>(less: (O, O) -> bool, op: O, r: Expr<V, O>) {
    r.Binary? ==> !less(r.op, op)
  }

  // ---------- what the parser has read ----------

  /** What lies open in front of the current operand, innermost first: a parenthesis, or an operand
      with its operator. */
  datatype Frames<V, O> =
    | Bottom
    | Open(below: Frames<V, O>)
    | Before(below: Frames<V, O>, e: Expr<V, O>, op: O)

  function FramesText<V, O>(fs: Frames<V, O>): seq<Token<V, O>> {
    match fs
    case Bottom => []
    case Open(below) => FramesText(below) + [Left]
    case Before(below, e, op) => FramesText(below) + (Flatten(e) + [Operator(op)])
  }

  function Items<V, O>(fs: Frames<V, O>): seq<Item<O>> {
    match fs
    case Bottom => []
    case Open(below) => Items(below) + [LeftParen]
    case Before(below, _, op) => Items(below) + [Op(op)]
  }

  function Operands<V, O>(fs: Frames<V, O>): seq<Tree<V, O>> {
    match fs
    case Bottom => []
    case Open(below) => Operands(below)
    case Before(below, e, _) => Operands(below) + [Strip(e)]
  }

  function Opens<V, O>(fs: Frames<V, O>): nat {
    match fs
    case Bottom => 0
    case Open(below) => Opens(below) + 1
    case Before(below, _, _) => Opens(below)
  }

  /** An operator may come to lie on these frames: up to the next parenthesis, operators bind more
      and more tightly. */
  predicate LiesOn<V, O>(less: (O, O) -> bool, fs: Frames<V, O>, op: O) {
    fs.Before? ==> !less(op, fs.op)
  }

  predicate Ordered<V, O>(less: (O, O) -> bool, fs: Frames<V, O>) {
    match fs
    case Bottom => true
    case Open(below) => Ordered(less, below)
    case Before(below, e, op) =>
      Ordered(less, below) && Canonical(less, e) && LeftOf(less, e, op) && LiesOn(less, below, op)
  }

  /** An operand, canonical in itself, that may stand on the right of the innermost operator. */
  predicate Fits<V, O>(less: (O, O) -> bool, fs: Frames<V, O>, c: Expr<V, O>) {
    Canonical(less, c) && (c.Binary? ==> LiesOn(less, fs, c.op))
  }

  /** These frames and this operand make up the orphans, and together spell the tokens. */
  ghost predicate Holds<V, O>(less: (O, O) -> bool, orphans: seq<Tree<V, O>>, fs: Frames<V, O>,
                              c: Expr<V, O>, ts: seq<Token<V, O>>) {
    && orphans == Operands(fs) + [Strip(c)]
    && ts == FramesText(fs) + Flatten(c)
    && Ordered(less, fs) && Fits(less, fs, c)
  }

  /** Taking one operator from the stack joins the current operand to the one before it. */
  lemma JoinOne<V, O>(less: (O, O) -> bool, orphans: seq<Tree<V, O>>, fs: Frames<V, O>, c: Expr<V, O>,
                      ts: seq<Token<V, O>>)
    requires Holds(less, orphans, fs, c, ts) && fs.Before?
    ensures var joined := Joined(orphans, fs.op);
            joined.Some? && Holds(less, joined.value, fs.below, Binary(fs.e, fs.op, c), ts)
  {
    assert orphans[..|orphans| - 2] == Operands(fs.below);
    Regroup(FramesText(fs.below), Flatten(fs.e) + [Operator(fs.op)], Flatten(c));
  }

  /** The innermost frame is an operator that satisfies the condition. */
  predicate Takes<V, O>(fs: Frames<V, O>, p: O -> bool) {
    fs.Before? && p(fs.op)
  }

  lemma PopsFrames<V, O>(orphans: seq<Tree<V, O>>, fs: Frames<V, O>, p: O -> bool)
    ensures Pops(orphans, Items(fs), p)
         == if !Takes(fs, p) then Some((orphans, Items(fs)))
            else match Joined(orphans, fs.op)
              case None => None
              case Some(ts) => Pops(ts, Items(fs.below), p)
  {
    if !fs.Bottom? {
      assert Items(fs)[..|Items(fs)| - 1] == Items(fs.below);
    }
  }

  /** So does taking several; the last joined satisfies the condition, and the next does not. */
  lemma {:induction false} PopsHold<V, O>(less: (O, O) -> bool, orphans: seq<Tree<V, O>>, fs: Frames<V, O>,
                                          c: Expr<V, O>, ts: seq<Token<V, O>>, p: O -> bool)
      returns (orphans': seq<Tree<V, O>>, fs': Frames<V, O>, c': Expr<V, O>)
    requires Holds(less, orphans, fs, c, ts)
    ensures Pops(orphans, Items(fs), p) == Some((orphans', Items(fs')))
    ensures Holds(less, orphans', fs', c', ts)
    ensures !Takes(fs', p) && Opens(fs') == Opens(fs)
    ensures c' == c || (c'.Binary? && p(c'.op))
    decreases fs
  {
    PopsFrames(orphans, fs, p);
    if Takes(fs, p) {
      JoinOne(less, orphans, fs, c, ts);
      orphans', fs', c' := PopsHold(less, Joined(orphans, fs.op).value, fs.below, Binary(fs.e, fs.op, c), ts, p);
    } else {
      orphans', fs', c' := orphans, fs, c;
    }
  }

  // ---------- every state of a run ----------

  /** What the parser holds after these tokens: frames, and an operand if it expects an operator. The
      operand is never left without parentheses around its operators. */
  ghost predicate Represents<V, O>(less: (O, O) -> bool, s: State<V, O>, fs: Frames<V, O>,
                                   c: Option<Expr<V, O>>, ts: seq<Token<V, O>>) {
    && s.ops == Items(fs) && s.level == Opens(fs) && s.expectsOp == c.Some?
    && match c
       case Some(e) => !e.Binary? && Holds(less, s.orphans, fs, e, ts)
       case None => s.orphans == Operands(fs) && ts == FramesText(fs) && Ordered(less, fs)
  }

  lemma VariableKeeps<V, O>(less: (O, O) -> bool, s: State<V, O>, fs: Frames<V, O>, ts: seq<Token<V, O>>, v: V)
    requires Represents(less, s, fs, None, ts)
    ensures var s' := AfterVariable(s, v);
            s'.Some? && Represents(less, s'.value, fs, Some(Atom(v)), ts + [Variable(v)])
  {
  }

  lemma OperatorKeeps<V, O>(less: (O, O) -> bool, s: State<V, O>, fs: Frames<V, O>, c: Expr<V, O>,
                            ts: seq<Token<V, O>>, op: O) returns (fs': Frames<V, O>)
    requires Represents(less, s, fs, Some(c), ts)
    ensures var s' := AfterOperator(less, s, op);
            s'.Some? && Represents(less, s'.value, fs', None, ts + [Operator(op)])
  {
    var orphans, below, e := PopsHold(less, s.orphans, fs, c, ts, top => less(op, top));
    fs' := Before(below, e, op);
    Regroup(FramesText(below), Flatten(e), [Operator(op)]);
  }

  lemma LeftKeeps<V, O>(less: (O, O) -> bool, s: State<V, O>, fs: Frames<V, O>, ts: seq<Token<V, O>>)
    requires Represents(less, s, fs, None, ts)
    ensures var s' := AfterLeft(s);
            s'.Some? && Represents(less, s'.value, Open(fs), None, ts + [Left])
  {
  }

  lemma RightKeeps<V, O>(less: (O, O) -> bool, s: State<V, O>, fs: Frames<V, O>, c: Expr<V, O>,
                         ts: seq<Token<V, O>>) returns (fs': Frames<V, O>, c': Expr<V, O>)
    requires Represents(less, s, fs, Some(c), ts) && s.level > 0
    ensures var s' := AfterRight(s);
            s'.Some? && Represents(less, s'.value, fs', Some(c'), ts + [Right])
  {
    var orphans, open, e := PopsHold(less, s.orphans, fs, c, ts, Any);
    fs', c' := open.below, Paren(e);
    assert Items(open)[..|Items(open)| - 1] == Items(fs');
    Regroup(FramesText(fs'), [Left], Flatten(e));
    Regroup(FramesText(fs'), [Left] + Flatten(e), [Right]);
  }

  // ---------- which tokens are accepted ----------

  /** Where the parser stands, as far as its checks go: the parentheses that are open, and whether it
      expects an operator. */
  datatype Place = Place(level: nat, expectsOp: bool)

  function Move<V, O>(at: Place, t: Token<V, O>): Option<Place> {
    match t
    case Variable(_) => if at.expectsOp then None else Some(Place(at.level, true))
    case Operator(_) => if at.expectsOp then Some(Place(at.level, false)) else None
    case Left => if at.expectsOp then None else Some(Place(at.level + 1, false))
    case Right => if at.expectsOp && at.level > 0 then Some(Place(at.level - 1, true)) else None
  }

  function Moves<V, O>(at: Place, ts: seq<Token<V, O>>): Option<Place> {
    if ts == [] then Some(at)
    else
      match Moves(at, ts[..|ts| - 1])
      case None => None
      case Some(p) => Move(p, ts[|ts| - 1])
  }

  lemma {:induction false} MovesConcat<V, O>(at: Place, a: seq<Token<V, O>>, b: seq<Token<V, O>>)
    ensures Moves(at, a + b) == match Moves(at, a) case None => None case Some(p) => Moves(p, b)
  {
    if b == [] {
      assert a + b == a;
    } else {
      assert (a + b)[..|a + b| - 1] == a + b[..|b| - 1];
      MovesConcat(at, a, b[..|b| - 1]);
    }
  }

  lemma MovesOne<V, O>(at: Place, t: Token<V, O>)
    ensures Moves(at, [t]) == Move(at, t)
  {
    assert [t][..0] == [];
    assert Moves(at, [t][..0]) == Some(at);
  }

  /** A written expression passes wherever an operand is expected. */
  lemma {:induction false} ExprMoves<V, O>(level: nat, e: Expr<V, O>)
    ensures Moves(Place(level, false), Flatten(e)) == Some(Place(level, true))
    decreases e
  {
    match e
    case Atom(v) => MovesOne(Place(level, false), Token<V, O>.Variable(v));
    case Paren(inner) =>
      var open: seq<Token<V, O>> := [Left];
      var close: seq<Token<V, O>> := [Right];
      MovesOne(Place(level, false), Token<V, O>.Left);
      ExprMoves(level + 1, inner);
      MovesOne(Place(level + 1, true), Token<V, O>.Right);
      MovesConcat(Place(level, false), open, Flatten(inner));
      MovesConcat(Place(level, false), open + Flatten(inner), close);
    case Binary(l, op, r) =>
      var sign: seq<Token<V, O>> := [Operator(op)];
      ExprMoves(level, l);
      MovesOne(Place(level, true), Token<V, O>.Operator(op));
      ExprMoves(level, r);
      MovesConcat(Place(level, false), Flatten(l), sign);
      MovesConcat(Place(level, false), Flatten(l) + sign, Flatten(r));
  }

  /** After every run: the parser accepts exactly the tokens that pass the checks, and then holds
      frames and an operand that spell them. No operator is ever pushed without its operands. */
  lemma {:induction false} RunRepresents<V, O>(less: (O, O) -> bool, ts: seq<Token<V, O>>)
      returns (fs: Frames<V, O>, c: Option<Expr<V, O>>)
    ensures Run(less, ts).Some? <==> Moves(Place(0, false), ts).Some?
    ensures Run(less, ts).Some? ==>
              && Represents(less, Run(less, ts).value, fs, c, ts)
              && Moves(Place(0, false), ts).value == Place(Opens(fs), c.Some?)
  {
    fs, c := Bottom, None;
    if ts != [] {
      var before, t := ts[..|ts| - 1], ts[|ts| - 1];
      assert ts == before + [t];
      fs, c := RunRepresents(less, before);
      if Run(less, before).Some? {
        fs, c := StepKeeps(less, Run(less, before).value, fs, c, before, t);
      }
    }
  }

  /** The step is taken if and only if the check lets it, and what is held afterwards spells one token
      more. */
  ghost predicate Kept<V, O>(less: (O, O) -> bool, s: State<V, O>, ts: seq<Token<V, O>>, t: Token<V, O>,
                             fs: Frames<V, O>, c: Option<Expr<V, O>>) {
    match (Step(less, s, t), Move(Place(s.level, s.expectsOp), t))
    case (Some(s'), Some(p)) => Represents(less, s', fs, c, ts + [t]) && p == Place(Opens(fs), c.Some?)
    case (a, b) => a.None? && b.None?
  }

  lemma OperandStep<V, O>(less: (O, O) -> bool, s: State<V, O>, fs: Frames<V, O>, ts: seq<Token<V, O>>,
                          t: Token<V, O>) returns (fs': Frames<V, O>, c': Option<Expr<V, O>>)
    requires Represents(less, s, fs, None, ts)
    ensures Kept(less, s, ts, t, fs', c')
  {
    fs', c' := fs, None;
    match t
    case Variable(v) =>
      VariableKeeps(less, s, fs, ts, v);
      c' := Some(Atom(v));
    case Left =>
      LeftKeeps(less, s, fs, ts);
      fs' := Open(fs);
    case _ =>
  }

  lemma OperatorStep<V, O>(less: (O, O) -> bool, s: State<V, O>, fs: Frames<V, O>, c: Expr<V, O>,
                           ts: seq<Token<V, O>>, t: Token<V, O>) returns (fs': Frames<V, O>, c': Option<Expr<V, O>>)
    requires Represents(less, s, fs, Some(c), ts)
    ensures Kept(less, s, ts, t, fs', c')
  {
    fs', c' := fs, None;
    match t
    case Operator(op) => fs' := OperatorKeeps(less, s, fs, c, ts, op);
    case Right =>
      if s.level > 0 {
        var e;
        fs', e := RightKeeps(less, s, fs, c, ts);
        c' := Some(e);
      }
    case _ =>
  }

  lemma StepKeeps<V, O>(less: (O, O) -> bool, s: State<V, O>, fs: Frames<V, O>, c: Option<Expr<V, O>>,
                        ts: seq<Token<V, O>>, t: Token<V, O>) returns (fs': Frames<V, O>, c': Option<Expr<V, O>>)
    requires Represents(less, s, fs, c, ts)
    ensures Kept(less, s, ts, t, fs', c')
  {
    if c.Some? {
      fs', c' := OperatorStep(less, s, fs, c.value, ts, t);
    } else {
      fs', c' := OperandStep(less, s, fs, ts, t);
    }
  }
}
