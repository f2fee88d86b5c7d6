/** Whole runs of the rc-file commands. */
module RcRuns {
  import opened Wrappers
  import opened Sequences
  import opened RcEditor

  // ---------- laws of single edits ----------

  /** Adding the same values a second time changes nothing. */
  lemma AddTwice(xs: seq<string>, vs: seq<string>, opt: AddType)
    ensures Added(Added(xs, vs, opt), vs, opt) == Added(xs, vs, opt)
  {
    var rest := Without(xs, vs);
    forall x <- rest
      ensures x !in vs
    {
      WithoutMember(xs, vs, x);
    }
    WithoutNothing(rest, vs);
    WithoutEverything(vs, vs);
    match opt
    case Append =>
      WithoutConcat(rest, vs, vs);
      assert rest + [] == rest;
    case Prepend =>
      WithoutConcat(vs, rest, vs);
      assert [] + rest == rest;
  }

  /** An absent key behaves like an empty list. */
  lemma AbsentIsEmpty(config: Config, doc: Document, key: string, value: string, opt: AddType)
    requires key !in doc
    ensures AddOne(config, doc, key, value, opt) == AddOne(config, doc[key := Sequence([])], key, value, opt)
  {
    if config.isValidSequence(key, value) {
      var vs := config.deserialize(value);
      assert Added([], vs, opt) == vs;
      assert doc[key := Sequence([])][key := Sequence(vs)] == doc[key := Sequence(vs)];
    }
  }

  /** Both of two edits in a row. */
  function AddBoth(config: Config, doc: Document, a: (string, string), b: (string, string),
                   optA: AddType, optB: AddType): Result<Document, EditError>
  {
    var next :- AddOne(config, doc, a.0, a.1, optA);
    AddOne(config, next, b.0, b.1, optB)
  }

  /** Edits of different keys commute: both orders are refused, or both give the same document. */
  lemma DifferentKeysCommute(config: Config, doc: Document, a: (string, string), b: (string, string),
                             optA: AddType, optB: AddType)
    requires a.0 != b.0
    ensures var ab, ba := AddBoth(config, doc, a, b, optA, optB), AddBoth(config, doc, b, a, optB, optA);
            ab.Ok? == ba.Ok? && (ab.Ok? ==> ab.value == ba.value)
  {
    var first, second := AddOne(config, doc, a.0, a.1, optA), AddOne(config, doc, b.0, b.1, optB);
    if first.Ok? && second.Ok? {
      var n, m := first.value[a.0], second.value[b.0];
      assert doc[a.0 := n][b.0 := m] == doc[b.0 := m][a.0 := n];
    }
  }

  /** The values that are added go to their end of the list in their own order; the others keep
      theirs. */
  lemma AddedContents(xs: seq<string>, vs: seq<string>, opt: AddType)
    ensures forall x :: x in Added(xs, vs, opt) <==> x in xs || x in vs
    ensures match opt
            case Append => vs == Added(xs, vs, opt)[|Added(xs, vs, opt)| - |vs|..]
            case Prepend => vs <= Added(xs, vs, opt)
    ensures NoDuplicates(xs) && NoDuplicates(vs) ==> NoDuplicates(Added(xs, vs, opt))
  {
    forall x
      ensures x in Without(xs, vs) <==> x in xs && x !in vs
    {
      WithoutMember(xs, vs, x);
    }
    if NoDuplicates(xs) {
      WithoutKeepsUnique(xs, vs);
    }
    var rest := Without(xs, vs);
    assert forall i :: 0 <= i < |rest| ==> rest[i] in rest;
    assert forall i :: 0 <= i < |vs| ==> vs[i] in vs;
  }

  // ---------- remove ----------

  function Count(xs: seq<string>, v: string): nat {
    if xs == [] then 0 else (if xs[0] == v then 1 else 0) + Count(xs[1..], v)
  }

  lemma {:induction false} CountMember(xs: seq<string>, v: string)
    ensures Count(xs, v) > 0 <==> v in xs
  {
    if xs != [] {
      assert xs == [xs[0]] + xs[1..];
      CountMember(xs[1..], v);
    }
  }

  lemma {:induction false} UniqueCount(xs: seq<string>, v: string)
    requires NoDuplicates(xs)
    ensures Count(xs, v) <= 1
  {
    if xs != [] {
      assert forall i :: 0 <= i < |xs[1..]| ==> xs[1..][i] == xs[i + 1];
      UniqueCount(xs[1..], v);
      CountMember(xs[1..], v);
    }
  }

  lemma {:induction false} RemoveFirstCount(xs: seq<string>, v: string)
    requires v in xs
    ensures Count(RemoveFirst(xs, v), v) == Count(xs, v) - 1
    ensures |RemoveFirst(xs, v)| == |xs| - 1
  {
    if xs[0] != v {
      RemoveFirstCount(xs[1..], v);
    }
  }

  /** The command's help promises to remove all instances of a value; it does so if and only if
      the value occurs at most once, and then it removes nothing else. */
  lemma {:induction false} RemovesAllInstances(xs: seq<string>, v: string)
    ensures v !in RemoveFirst(xs, v) <==> Count(xs, v) <= 1
    ensures Count(xs, v) <= 1 <==> RemoveFirst(xs, v) == Without(xs, [v])
  {
    CountMember(xs, v);
    CountMember(RemoveFirst(xs, v), v);
    WithoutMember(xs, [v], v);
    if v in xs {
      RemoveFirstCount(xs, v);
    } else {
      RemoveFirstAbsent(xs, v);
    }
    if Count(xs, v) <= 1 {
      FirstIsAll(xs, v);
    }
  }

  lemma {:induction false} RemoveFirstAbsent(xs: seq<string>, v: string)
    requires v !in xs
    ensures RemoveFirst(xs, v) == xs
  {
    if xs != [] {
      RemoveFirstAbsent(xs[1..], v);
    }
  }

  lemma {:induction false} FirstIsAll(xs: seq<string>, v: string)
    requires Count(xs, v) <= 1
    ensures RemoveFirst(xs, v) == Without(xs, [v])
  {
    if xs != [] {
      CountMember(xs[1..], v);
      if xs[0] == v {
        WithoutNothing(xs[1..], [v]);
      } else {
        FirstIsAll(xs[1..], v);
      }
    }
  }

  // ---------- runs over the whole file ----------

  /** One command line. A command that is refused leaves the file as it was. */
  datatype Command =
    | Add(specs: seq<(string, string)>, opt: AddType)
    | Remove(args: seq<string>)
    | RemoveKey(key: string)

  function Execute(config: Config, doc: Document, c: Command): Document {
    match c
    case Add(specs, opt) =>
      (match AddPairs(config, doc, specs, opt) case Ok(d) => d case Err(_) => doc)
    case Remove(args) =>
      (match RemoveArgs(doc, args) case Ok(d) => d case Err(_) => doc)
    case RemoveKey(key) => doc - {key}
  }

  function Run(config: Config, doc: Document, cs: seq<Command>): Document {
    if cs == [] then doc else Execute(config, Run(config, doc, cs[..|cs| - 1]), cs[|cs| - 1])
  }

  predicate TidyList(xs: seq<string>) {
    xs != [] && NoDuplicates(xs)
  }

  /** Every list in the file is non-empty and free of duplicates. */
  predicate Tidy(doc: Document) {
    forall k <- doc :: doc[k].Sequence? ==> TidyList(doc[k].values)
  }

  /** The lists given on the command lines are non-empty and free of duplicates. */
  predicate TidySpecs(config: Config, specs: seq<(string, string)>) {
    forall s <- specs :: config.isValidSequence(s.0, s.1) ==>
                           config.deserialize(s.1) != [] && NoDuplicates(config.deserialize(s.1))
  }

  predicate TidyCommand(config: Config, c: Command) {
    c.Add? ==> TidySpecs(config, c.specs)
  }

  lemma TidyUpdate(doc: Document, key: string, xs: seq<string>)
    requires Tidy(doc)
    ensures Tidy(doc[key := Sequence(xs)]) <==> TidyList(xs)
  {
    assert doc[key := Sequence(xs)][key] == Sequence(xs);
  }

  lemma AddedTidy(xs: seq<string>, vs: seq<string>, opt: AddType)
    requires NoDuplicates(xs)
    ensures TidyList(Added(xs, vs, opt)) <==> NoDuplicates(vs) && (vs == [] ==> xs != [])
  {
    var list := Added(xs, vs, opt);
    AddedContents(xs, vs, opt);
    AddedEmpty(xs, vs, opt);
    if NoDuplicates(list) {
      match opt
      case Append => PartUnique(list, |list| - |vs|, |list|);
      case Prepend => PartUnique(list, 0, |vs|);
    }
  }

  lemma AddedEmpty(xs: seq<string>, vs: seq<string>, opt: AddType)
    ensures Added(xs, vs, opt) == [] <==> xs == [] && vs == []
  {
    if vs == [] && xs != [] {
      WithoutMember(xs, vs, xs[0]);
    }
  }

  lemma PartUnique(xs: seq<string>, i: nat, j: nat)
    requires i <= j <= |xs| && NoDuplicates(xs)
    ensures NoDuplicates(xs[i..j])
  {
  }

  /** One accepted pair keeps a file tidy if and only if its list names no value twice, and is not
      the empty list of a new key. */
  lemma AddOneTidy(config: Config, doc: Document, key: string, text: string, opt: AddType)
    requires Tidy(doc) && AddOne(config, doc, key, text, opt).Ok?
    ensures var vs := config.deserialize(text);
            Tidy(AddOne(config, doc, key, text, opt).value)
            <==> NoDuplicates(vs) && (vs == [] ==> key in doc)
  {
    var vs := config.deserialize(text);
    if key in doc {
      AddedTidy(doc[key].values, vs, opt);
      TidyUpdate(doc, key, Added(doc[key].values, vs, opt));
    } else {
      TidyUpdate(doc, key, vs);
    }
  }

  lemma {:induction false} AddPairsTidy(config: Config, doc: Document, specs: seq<(string, string)>, opt: AddType)
    requires Tidy(doc) && TidySpecs(config, specs)
    ensures var r := AddPairs(config, doc, specs, opt); r.Ok? ==> Tidy(r.value)
    decreases |specs|
  {
    if specs != [] {
      assert specs[0] in specs && forall s <- specs[1..] :: s in specs;
      var next := AddOne(config, doc, specs[0].0, specs[0].1, opt);
      if next.Ok? {
        AddOneTidy(config, doc, specs[0].0, specs[0].1, opt);
        AddPairsTidy(config, next.value, specs[1..], opt);
      }
    }
  }

  lemma RemoveTidy(doc: Document, key: string, v: string)
    requires Tidy(doc)
    ensures Tidy(RemoveValue(doc, key, v))
  {
    if key in doc && doc[key].Sequence? && v in doc[key].values {
      var xs := doc[key].values;
      UniqueCount(xs, v);
      RemovesAllInstances(xs, v);
      RemoveFirstCount(xs, v);
      WithoutKeepsUnique(xs, [v]);
    }
  }

  lemma ExecuteTidy(config: Config, doc: Document, c: Command)
    requires Tidy(doc) && TidyCommand(config, c)
    ensures Tidy(Execute(config, doc, c))
  {
    match c
    case Add(specs, opt) => AddPairsTidy(config, doc, specs, opt);
    case Remove(args) =>
      if |args| == 2 {
        RemoveTidy(doc, args[0], args[1]);
      }
    case RemoveKey(key) =>
  }

  /** Every reachable file is tidy. */
  lemma {:induction false} RunTidy(config: Config, doc: Document, cs: seq<Command>)
    requires Tidy(doc) && forall c <- cs :: TidyCommand(config, c)
    ensures Tidy(Run(config, doc, cs))
  {
    if cs != [] {
      assert forall c <- cs[..|cs| - 1] :: c in cs;
      assert cs[|cs| - 1] in cs;
      RunTidy(config, doc, cs[..|cs| - 1]);
      ExecuteTidy(config, Run(config, doc, cs[..|cs| - 1]), cs[|cs| - 1]);
    }
  }

  // ---------- remove, in one file and after runs ----------

  /** `remove` touches no other key, and no key that holds a single string. */
  lemma RemoveLeavesOthers(doc: Document, key: string, v: string, k: string)
    requires k != key || (k in doc && doc[k].Scalar?)
    ensures var after := RemoveValue(doc, key, v);
            (k in after <==> k in doc) && (k in after ==> after[k] == doc[k])
  {
  }

  /** What the help promises of one list: exactly the instances of the value go, and the key goes
      with its last value. */
  predicate AllInstancesGo(doc: Document, after: Document, key: string, v: string)
    requires key in doc && doc[key].Sequence?
  {
    var rest := Without(doc[key].values, [v]);
    (key in after <==> rest != []) && (key in after ==> after[key] == Sequence(rest))
  }

  /** The promise is kept if and only if the list is not empty and holds the value at most once. */
  lemma RemoveIsExact(doc: Document, key: string, v: string)
    requires key in doc && doc[key].Sequence?
    ensures AllInstancesGo(doc, RemoveValue(doc, key, v), key, v)
            <==> doc[key].values != [] && Count(doc[key].values, v) <= 1
  {
    var xs := doc[key].values;
    RemovesAllInstances(xs, v);
    CountMember(xs, v);
    if v in xs {
      RemoveFirstCount(xs, v);
    } else {
      WithoutNothing(xs, [v]);
    }
  }

  /** In every file reached by commands whose lists are non-empty and free of duplicates, `remove`
      does what its help says, and touches nothing else. */
  lemma RemoveKeepsPromise(config: Config, doc: Document, cs: seq<Command>, key: string, v: string)
    requires Tidy(doc) && forall c <- cs :: TidyCommand(config, c)
    ensures var before := Run(config, doc, cs);
            var after := Execute(config, before, Remove([key, v]));
            && (key in before && before[key].Sequence? ==> AllInstancesGo(before, after, key, v))
            && forall k :: k != key || (k in before && before[k].Scalar?) ==>
                             (k in after <==> k in before) && (k in after ==> after[k] == before[k])
  {
    RunTidy(config, doc, cs);
    var before := Run(config, doc, cs);
    if key in before && before[key].Sequence? {
      UniqueCount(before[key].values, v);
      RemoveIsExact(before, key, v);
    }
    forall k | k != key || (k in before && before[k].Scalar?)
      ensures var after := RemoveValue(before, key, v);
              (k in after <==> k in before) && (k in after ==> after[k] == before[k])
    {
      RemoveLeavesOthers(before, key, v, k);
    }
  }

  lemma {:induction false} CountConcat(xs: seq<string>, ys: seq<string>, v: string)
    ensures Count(xs + ys, v) == Count(xs, v) + Count(ys, v)
  {
    if xs == [] {
      assert xs + ys == ys;
    } else {
      assert (xs + ys)[1..] == xs[1..] + ys;
      CountConcat(xs[1..], ys, v);
    }
  }

  lemma {:induction false} CountWithout(xs: seq<string>, vs: seq<string>, v: string)
    ensures Count(Without(xs, vs), v) == if v in vs then 0 else Count(xs, v)
  {
    if xs != [] {
      CountWithout(xs[1..], vs, v);
      if xs[0] in vs {
        assert Without(xs, vs) == Without(xs[1..], vs);
      } else {
        assert Without(xs, vs)[1..] == Without(xs[1..], vs);
      }
    }
  }

  /** A value occurs in the new list as often as on the command line, if it is there at all. */
  lemma CountAdded(xs: seq<string>, vs: seq<string>, opt: AddType, v: string)
    ensures Count(Added(xs, vs, opt), v) == if v in vs then Count(vs, v) else Count(xs, v)
  {
    var rest := Without(xs, vs);
    CountWithout(xs, vs, v);
    CountMember(vs, v);
    CountConcat(rest, vs, v);
    CountConcat(vs, rest, v);
  }

  lemma TwoCommands(config: Config, doc: Document, a: Command, b: Command)
    ensures Run(config, doc, [a, b]) == Execute(config, Execute(config, doc, a), b)
  {
    assert [a, b][..1] == [a];
    assert [a][..0] == [];
    assert Run(config, doc, [a]) == Execute(config, doc, a);
  }

  lemma AddOnePair(config: Config, doc: Document, key: string, text: string, opt: AddType)
    ensures AddPairs(config, doc, [(key, text)], opt) == AddOne(config, doc, key, text, opt)
  {
    assert [(key, text)][1..] == [];
  }

  /** How often a value stands in the list of a key. */
  function Occurrences(doc: Document, key: string, v: string): nat {
    if key in doc && doc[key].Sequence? then Count(doc[key].values, v) else 0
  }

  lemma CountAfterRemove(doc: Document, key: string, v: string)
    ensures var n := Occurrences(doc, key, v);
            Occurrences(RemoveValue(doc, key, v), key, v) == if n == 0 then 0 else n - 1
  {
    if key in doc && doc[key].Sequence? {
      var xs := doc[key].values;
      CountMember(xs, v);
      if v in xs {
        RemoveFirstCount(xs, v);
        if |xs| == 1 {
          assert xs == [v];
        }
      }
    }
  }

  function Removes(key: string, v: string, n: nat): seq<Command> {
    seq(n, _ => Remove([key, v]))
  }

  /** Whatever the file, it takes as many `remove` commands as there are instances. */
  lemma {:induction false} RemovesNeeded(config: Config, doc: Document, key: string, v: string, n: nat)
    ensures var had := Occurrences(doc, key, v);
            Occurrences(Run(config, doc, Removes(key, v, n)), key, v) == if n >= had then 0 else had - n
  {
    if n > 0 {
      var cs := Removes(key, v, n);
      assert cs[..n - 1] == Removes(key, v, n - 1);
      RemovesNeeded(config, doc, key, v, n - 1);
      CountAfterRemove(Run(config, doc, cs[..n - 1]), key, v);
    }
  }

  /** No list on a command line names the value more than `n` times. */
  predicate NamesAtMost(config: Config, c: Command, v: string, n: nat) {
    c.Add? ==> forall s <- c.specs :: Count(config.deserialize(s.1), v) <= n
  }

  predicate HoldsAtMost(doc: Document, v: string, n: nat) {
    forall k <- doc :: Occurrences(doc, k, v) <= n
  }

  lemma AddOneHolds(config: Config, doc: Document, s: (string, string), opt: AddType, v: string, n: nat)
    requires HoldsAtMost(doc, v, n) && Count(config.deserialize(s.1), v) <= n
    ensures var r := AddOne(config, doc, s.0, s.1, opt); r.Ok? ==> HoldsAtMost(r.value, v, n)
  {
    var vs := config.deserialize(s.1);
    var r := AddOne(config, doc, s.0, s.1, opt);
    if r.Ok? {
      if s.0 in doc {
        CountAdded(doc[s.0].values, vs, opt, v);
        assert Occurrences(doc, s.0, v) <= n;
      }
      forall k <- r.value
        ensures Occurrences(r.value, k, v) <= n
      {
        if k != s.0 {
          assert Occurrences(doc, k, v) <= n;
        }
      }
    }
  }

  lemma {:induction false} AddPairsHold(config: Config, doc: Document, specs: seq<(string, string)>, opt: AddType,
                                        v: string, n: nat)
    requires HoldsAtMost(doc, v, n) && forall s <- specs :: Count(config.deserialize(s.1), v) <= n
    ensures var r := AddPairs(config, doc, specs, opt); r.Ok? ==> HoldsAtMost(r.value, v, n)
    decreases |specs|
  {
    if specs != [] {
      assert specs[0] in specs && forall s <- specs[1..] :: s in specs;
      AddOneHolds(config, doc, specs[0], opt, v, n);
      var next := AddOne(config, doc, specs[0].0, specs[0].1, opt);
      if next.Ok? {
        AddPairsHold(config, next.value, specs[1..], opt, v, n);
      }
    }
  }

  lemma RemoveHolds(doc: Document, key: string, w: string, v: string, n: nat)
    requires HoldsAtMost(doc, v, n)
    ensures HoldsAtMost(RemoveValue(doc, key, w), v, n)
  {
    var after := RemoveValue(doc, key, w);
    forall k <- after
      ensures Occurrences(after, k, v) <= n
    {
      assert Occurrences(doc, k, v) <= n;
      if k == key && doc[k].Sequence? {
        RemoveFirstNoMore(doc[k].values, w, v);
      }
    }
  }

  lemma {:induction false} RemoveFirstNoMore(xs: seq<string>, w: string, v: string)
    ensures Count(RemoveFirst(xs, w), v) <= Count(xs, v)
  {
    if xs != [] && xs[0] != w {
      RemoveFirstNoMore(xs[1..], w, v);
    }
  }

  lemma ExecuteHolds(config: Config, doc: Document, c: Command, v: string, n: nat)
    requires HoldsAtMost(doc, v, n) && NamesAtMost(config, c, v, n)
    ensures HoldsAtMost(Execute(config, doc, c), v, n)
  {
    match c
    case Add(specs, opt) => AddPairsHold(config, doc, specs, opt, v, n);
    case Remove(args) =>
      if |args| == 2 {
        RemoveHolds(doc, args[0], args[1], v, n);
      }
    case RemoveKey(key) =>
      var after := doc - {key};
      forall k <- after
        ensures Occurrences(after, k, v) <= n
      {
        assert Occurrences(doc, k, v) <= n;
      }
  }

  /** Over all runs: no list ever holds a value more often than the file did at first or one list
      of the command lines does. */
  lemma {:induction false} RunHolds(config: Config, doc: Document, cs: seq<Command>, v: string, n: nat)
    requires HoldsAtMost(doc, v, n) && forall c <- cs :: NamesAtMost(config, c, v, n)
    ensures HoldsAtMost(Run(config, doc, cs), v, n)
  {
    if cs != [] {
      assert forall c <- cs[..|cs| - 1] :: c in cs;
      assert cs[|cs| - 1] in cs;
      RunHolds(config, doc, cs[..|cs| - 1], v, n);
      ExecuteHolds(config, Run(config, doc, cs[..|cs| - 1]), cs[|cs| - 1], v, n);
    }
  }

  /** The command line may name a value twice. Then the list holds it twice, and one `remove`
      leaves the other: after `append` or `prepend` to a tidy file, a value is still there after
      `remove` if and only if the command line named it more than once. */
  lemma RemoveAfterAdd(config: Config, doc: Document, key: string, text: string, opt: AddType, v: string)
    requires Tidy(doc) && config.isValidSequence(key, text)
    requires key in doc ==> doc[key].Sequence?
    ensures var after := Run(config, doc, [Add([(key, text)], opt), Remove([key, v])]);
            Occurrences(after, key, v) > 0 <==> Count(config.deserialize(text), v) > 1
  {
    var vs := config.deserialize(text);
    var xs := if key in doc then doc[key].values else [];
    TwoCommands(config, doc, Add([(key, text)], opt), Remove([key, v]));
    assert Added([], vs, opt) == vs;
    AddOnePair(config, doc, key, text, opt);
    CountAdded(xs, vs, opt, v);
    CountMember(vs, v);
    UniqueCount(xs, v);
    CountAfterRemove(doc[key := Sequence(Added(xs, vs, opt))], key, v);
  }

  /** Such an input: `a,a` where it stands for two values. */
  lemma OneInstanceStays(config: Config)
    requires config.isValidSequence("k", "a,a") && config.deserialize("a,a") == ["a", "a"]
    ensures Run(config, map[], [Add([("k", "a,a")], Append), Remove(["k", "a"])]) == map["k" := Sequence(["a"])]
  {
    TwoCommands(config, map[], Add([("k", "a,a")], Append), Remove(["k", "a"]));
    AddOnePair(config, map[], "k", "a,a", Append);
    var added: Document := map["k" := Sequence(["a", "a"])];
    assert RemoveFirst(["a", "a"], "a") == ["a"];
    assert added["k" := Sequence(["a"])] == map["k" := Sequence(["a"])];
  }
}
