/** The order of a list after any run: by the command that last touched each value. */
module RcOrder {
  import opened Wrappers
  import opened Sequences
  import opened RcEditor
  import opened RcRuns

  // ---------- what a run does to one key ----------

  /** An edit of one list. */
  datatype Edit = Put(values: seq<string>, opt: AddType) | Drop(value: string) | Clear

  function ApplyEdit(xs: seq<string>, e: Edit): seq<string> {
    match e
    case Put(values, opt) => Added(xs, values, opt)
    case Drop(v) => Without(xs, [v])
    case Clear => []
  }

  function ApplyEdits(xs: seq<string>, es: seq<Edit>): seq<string> {
    if es == [] then xs else ApplyEdit(ApplyEdits(xs, es[..|es| - 1]), es[|es| - 1])
  }

  function ListAt(doc: Document, key: string): seq<string> {
    if key in doc && doc[key].Sequence? then doc[key].values else []
  }

  function PairEdits(config: Config, specs: seq<(string, string)>, opt: AddType, key: string): seq<Edit> {
    if specs == [] then []
    else (if specs[0].0 == key then [Put(config.deserialize(specs[0].1), opt)] else [])
         + PairEdits(config, specs[1..], opt, key)
  }

  /** The edits of one key that a command makes; a refused command makes none. */
  function CommandEdits(config: Config, doc: Document, c: Command, key: string): seq<Edit> {
    match c
    case Add(specs, opt) =>
      if AddPairs(config, doc, specs, opt).Ok? then PairEdits(config, specs, opt, key) else []
    case Remove(args) => if |args| == 2 && args[0] == key then [Drop(args[1])] else []
    case RemoveKey(k) => if k == key then [Clear] else []
  }

  function EditsOf(config: Config, doc: Document, cs: seq<Command>, key: string): seq<Edit> {
    if cs == [] then []
    else
      var before := cs[..|cs| - 1];
      EditsOf(config, doc, before, key) + CommandEdits(config, Run(config, doc, before), cs[|cs| - 1], key)
  }

  lemma {:induction false} ApplyConcat(xs: seq<string>, es: seq<Edit>, fs: seq<Edit>)
    ensures ApplyEdits(xs, es + fs) == ApplyEdits(ApplyEdits(xs, es), fs)
  {
    if fs == [] {
      assert es + fs == es;
    } else {
      assert (es + fs)[..|es + fs| - 1] == es + fs[..|fs| - 1];
      ApplyConcat(xs, es, fs[..|fs| - 1]);
    }
  }

  lemma ApplyOne(xs: seq<string>, e: Edit)
    ensures ApplyEdits(xs, [e]) == ApplyEdit(xs, e)
  {
  }

  lemma {:induction false} PairsEdit(config: Config, doc: Document, specs: seq<(string, string)>,
                                     opt: AddType, key: string)
    requires AddPairs(config, doc, specs, opt).Ok?
    ensures ListAt(AddPairs(config, doc, specs, opt).value, key)
         == ApplyEdits(ListAt(doc, key), PairEdits(config, specs, opt, key))
    decreases |specs|
  {
    if specs != [] {
      var s := specs[0];
      var next := AddOne(config, doc, s.0, s.1, opt).value;
      PairsEdit(config, next, specs[1..], opt, key);
      var rest := PairEdits(config, specs[1..], opt, key);
      if s.0 == key {
        var e := Put(config.deserialize(s.1), opt);
        assert Added([], e.values, opt) == e.values;
        ApplyOne(ListAt(doc, key), e);
        ApplyConcat(ListAt(doc, key), [e], rest);
      } else {
        assert PairEdits(config, specs, opt, key) == rest;
      }
    }
  }

  lemma DropEdit(doc: Document, key: string, v: string)
    requires Tidy(doc)
    ensures ListAt(RemoveValue(doc, key, v), key) == Without(ListAt(doc, key), [v])
  {
    var xs := ListAt(doc, key);
    UniqueCount(xs, v);
    RemovesAllInstances(xs, v);
    if v in xs {
      RemoveFirstCount(xs, v);
    } else {
      WithoutNothing(xs, [v]);
    }
  }

  lemma CommandEdit(config: Config, doc: Document, c: Command, key: string)
    requires Tidy(doc)
    ensures ListAt(Execute(config, doc, c), key) == ApplyEdits(ListAt(doc, key), CommandEdits(config, doc, c, key))
  {
    match c
    case Add(specs, opt) =>
      if AddPairs(config, doc, specs, opt).Ok? {
        PairsEdit(config, doc, specs, opt, key);
      }
    case Remove(args) =>
      if |args| == 2 && args[0] == key {
        ApplyOne(ListAt(doc, key), Drop(args[1]));
        DropEdit(doc, key, args[1]);
      }
    case RemoveKey(k) =>
      ApplyOne(ListAt(doc, key), Clear);
  }

  /** A run acts on each key as its edits of that key, whatever it does to the others. */
  lemma {:induction false} RunIsEdits(config: Config, doc: Document, cs: seq<Command>, key: string)
    requires Tidy(doc) && forall c <- cs :: TidyCommand(config, c)
    ensures ListAt(Run(config, doc, cs), key) == ApplyEdits(ListAt(doc, key), EditsOf(config, doc, cs, key))
  {
    if cs != [] {
      var before := cs[..|cs| - 1];
      assert forall c <- before :: c in cs;
      RunIsEdits(config, doc, before, key);
      RunTidy(config, doc, before);
      CommandEdit(config, Run(config, doc, before), cs[|cs| - 1], key);
      ApplyConcat(ListAt(doc, key), EditsOf(config, doc, before, key),
                  CommandEdits(config, Run(config, doc, before), cs[|cs| - 1], key));
    }
  }

  // ---------- the order by last touch ----------

  function IndexOf(xs: seq<string>, x: string): (i: nat)
    requires x in xs
    ensures i < |xs| && xs[i] == x && x !in xs[..i]
  {
    if xs[0] == x then 0
    else
      assert xs == [xs[0]] + xs[1..];
      var i := IndexOf(xs[1..], x);
      assert xs[..i + 1] == [xs[0]] + xs[1..][..i];
      i + 1
  }

  /** Where a value stands: prepended values come first, the latest call before the earlier ones;
      then the appended ones, the latest call last; within a call, in the order of the call. */
  datatype Place = Place(touch: int, position: nat)

  predicate Before(p: Place, q: Place) {
    p.touch < q.touch || (p.touch == q.touch && p.position < q.position)
  }

  /** The place given to a value by the edit that last touched it, if that edit left it there. */
  function PlaceOf(es: seq<Edit>, x: string): (p: Option<Place>)
    ensures p.Some? ==> -|es| <= p.value.touch <= |es|
  {
    if es == [] then None
    else
      var earlier := PlaceOf(es[..|es| - 1], x);
      match es[|es| - 1]
      case Put(vs, opt) =>
        if x in vs then Some(Place(if opt == Append then |es| else -|es|, IndexOf(vs, x))) else earlier
      case Drop(v) => if x == v then None else earlier
      case Clear => None
  }

  predicate Placed(es: seq<Edit>, xs: seq<string>) {
    forall x <- xs :: PlaceOf(es, x).Some?
  }

  predicate InOrder(es: seq<Edit>, xs: seq<string>)
    requires Placed(es, xs)
  {
    forall i, j :: 0 <= i < j < |xs| ==> Before(PlaceOf(es, xs[i]).value, PlaceOf(es, xs[j]).value)
  }

  /** Exactly the values that have a place, in the order of their places. */
  ghost predicate ByLastTouch(es: seq<Edit>, xs: seq<string>) {
    (forall x :: x in xs <==> PlaceOf(es, x).Some?) && InOrder(es, xs)
  }

  predicate TidyEdits(es: seq<Edit>) {
    forall e <- es :: e.Put? ==> NoDuplicates(e.values)
  }

  lemma {:induction false} WithoutInOrder(es: seq<Edit>, xs: seq<string>, vs: seq<string>)
    requires Placed(es, xs) && InOrder(es, xs)
    ensures Placed(es, Without(xs, vs)) && InOrder(es, Without(xs, vs))
  {
    if xs != [] {
      var rest := xs[1..];
      assert forall x <- rest :: x in xs;
      assert forall i :: 0 <= i < |rest| ==> rest[i] == xs[i + 1];
      WithoutInOrder(es, rest, vs);
      var kept := Without(rest, vs);
      assert xs[0] in xs;
      forall i | 0 <= i < |kept|
        ensures Before(PlaceOf(es, xs[0]).value, PlaceOf(es, kept[i]).value)
      {
        WithoutMember(rest, vs, kept[i]);
        assert kept[i] in kept;
        var k :| 0 <= k < |rest| && rest[k] == kept[i];
        assert xs[k + 1] == kept[i];
      }
    }
  }

  /** An edit leaves the places of the values it does not touch. */
  lemma PlacesStay(es: seq<Edit>, e: Edit, xs: seq<string>)
    requires Placed(es, xs) && InOrder(es, xs)
    requires match e case Put(vs, _) => (forall x <- xs :: x !in vs) case Drop(v) => v !in xs case Clear => xs == []
    ensures Placed(es + [e], xs) && InOrder(es + [e], xs)
    ensures forall x <- xs :: PlaceOf(es + [e], x) == PlaceOf(es, x)
  {
  }

  lemma NewPlaces(es: seq<Edit>, vs: seq<string>, opt: AddType)
    requires NoDuplicates(vs)
    ensures var fs := es + [Put(vs, opt)];
            && Placed(fs, vs) && InOrder(fs, vs)
            && forall i :: 0 <= i < |vs| ==>
                 PlaceOf(fs, vs[i]) == Some(Place(if opt == Append then |fs| else -|fs|, i))
  {
  }

  lemma ConcatInOrder(es: seq<Edit>, xs: seq<string>, ys: seq<string>)
    requires Placed(es, xs) && InOrder(es, xs) && Placed(es, ys) && InOrder(es, ys)
    requires forall x <- xs, y <- ys :: Before(PlaceOf(es, x).value, PlaceOf(es, y).value)
    ensures Placed(es, xs + ys) && InOrder(es, xs + ys)
  {
  }

  lemma PutOrdered(es: seq<Edit>, xs: seq<string>, vs: seq<string>, opt: AddType)
    requires ByLastTouch(es, xs) && NoDuplicates(vs)
    ensures ByLastTouch(es + [Put(vs, opt)], Added(xs, vs, opt))
  {
    var fs, rest := es + [Put(vs, opt)], Without(xs, vs);
    assert fs[..|fs| - 1] == es;
    forall x
      ensures x in rest <==> x in xs && x !in vs
    {
      WithoutMember(xs, vs, x);
    }
    WithoutInOrder(es, xs, vs);
    PlacesStay(es, Put(vs, opt), rest);
    NewPlaces(es, vs, opt);
    forall x <- rest, v <- vs
      ensures PlaceOf(fs, x).Some? && PlaceOf(fs, v).Some?
      ensures opt == Append ==> Before(PlaceOf(fs, x).value, PlaceOf(fs, v).value)
      ensures opt == Prepend ==> Before(PlaceOf(fs, v).value, PlaceOf(fs, x).value)
    {
      assert PlaceOf(fs, x) == PlaceOf(es, x);
      var i :| 0 <= i < |vs| && vs[i] == v;
    }
    if opt == Append {
      ConcatInOrder(fs, rest, vs);
    } else {
      ConcatInOrder(fs, vs, rest);
    }
  }

  lemma DropOrdered(es: seq<Edit>, xs: seq<string>, v: string)
    requires ByLastTouch(es, xs)
    ensures ByLastTouch(es + [Drop(v)], Without(xs, [v]))
  {
    var fs, rest := es + [Drop(v)], Without(xs, [v]);
    assert fs[..|fs| - 1] == es;
    forall x
      ensures x in rest <==> x in xs && x != v
    {
      WithoutMember(xs, [v], x);
    }
    WithoutInOrder(es, xs, [v]);
    PlacesStay(es, Drop(v), rest);
  }

  /** After any edits of a list that was empty, it holds exactly the values whose last touch put
      them there, ordered by last touch. */
  lemma {:induction false} OrderedByLastTouch(es: seq<Edit>)
    requires TidyEdits(es)
    ensures ByLastTouch(es, ApplyEdits([], es))
  {
    if es != [] {
      var before, e := es[..|es| - 1], es[|es| - 1];
      assert es == before + [e] && e in es && forall f <- before :: f in es;
      OrderedByLastTouch(before);
      match e
      case Put(vs, opt) => PutOrdered(before, ApplyEdits([], before), vs, opt);
      case Drop(v) => DropOrdered(before, ApplyEdits([], before), v);
      case Clear =>
    }
  }

  lemma HeadComesFirst(es: seq<Edit>, xs: seq<string>)
    requires xs != [] && Placed(es, xs) && InOrder(es, xs)
    ensures forall x :: x in xs[1..] <==> x in xs && x != xs[0]
    ensures forall x <- xs[1..] :: x in xs && Before(PlaceOf(es, xs[0]).value, PlaceOf(es, x).value)
    ensures Placed(es, xs[1..]) && InOrder(es, xs[1..])
  {
  }

  /** That order and those values leave no choice: there is one such list. */
  lemma {:induction false} OnlyOneList(es: seq<Edit>, xs: seq<string>, ys: seq<string>)
    requires Placed(es, xs) && InOrder(es, xs) && Placed(es, ys) && InOrder(es, ys)
    requires forall x :: x in xs <==> x in ys
    ensures xs == ys
  {
    assert xs != [] ==> xs[0] in xs;
    assert ys != [] ==> ys[0] in ys;
    if xs != [] && ys != [] {
      HeadComesFirst(es, xs);
      HeadComesFirst(es, ys);
      assert xs[0] == ys[0];
      OnlyOneList(es, xs[1..], ys[1..]);
    }
  }

  lemma {:induction false} EditsTidy(config: Config, doc: Document, cs: seq<Command>, key: string)
    requires forall c <- cs :: TidyCommand(config, c)
    ensures TidyEdits(EditsOf(config, doc, cs, key))
  {
    if cs != [] {
      var before, c := cs[..|cs| - 1], cs[|cs| - 1];
      assert c in cs && forall d <- before :: d in cs;
      EditsTidy(config, doc, before, key);
      if c.Add? && AddPairs(config, Run(config, doc, before), c.specs, c.opt).Ok? {
        PairEditsTidy(config, Run(config, doc, before), c.specs, c.opt, key);
      }
    }
  }

  lemma {:induction false} PairEditsTidy(config: Config, doc: Document, specs: seq<(string, string)>,
                                         opt: AddType, key: string)
    requires TidySpecs(config, specs) && AddPairs(config, doc, specs, opt).Ok?
    ensures TidyEdits(PairEdits(config, specs, opt, key))
    decreases |specs|
  {
    if specs != [] {
      assert specs[0] in specs && forall s <- specs[1..] :: s in specs;
      PairEditsTidy(config, AddOne(config, doc, specs[0].0, specs[0].1, opt).value, specs[1..], opt, key);
    }
  }

  /** The whole story of one key in any run on an rc file that did not have it. */
  lemma RunOrdersEachKey(config: Config, doc: Document, cs: seq<Command>, key: string)
    requires Tidy(doc) && key !in doc && forall c <- cs :: TidyCommand(config, c)
    ensures var es, xs := EditsOf(config, doc, cs, key), ListAt(Run(config, doc, cs), key);
            ByLastTouch(es, xs) && NoDuplicates(xs)
  {
    RunIsEdits(config, doc, cs, key);
    EditsTidy(config, doc, cs, key);
    OrderedByLastTouch(EditsOf(config, doc, cs, key));
  }
}
