/** Which commands on an rc file are refused, and what no command touches. */
module RcRefusals {
  import opened Wrappers
  import opened RcEditor
  import opened RcRuns

  /** The key holds a single string, to which no list can be added. */
  predicate HoldsScalar(doc: Document, key: string) {
    key in doc && doc[key].Scalar?
  }

  /** A pair is refused because the text is no list for its key, or because the key holds a single
      string. */
  predicate Bad(config: Config, doc: Document, s: (string, string)) {
    !config.isValidSequence(s.0, s.1) || HoldsScalar(doc, s.0)
  }

  /** The complaint about a bad pair. */
  predicate Complains(config: Config, doc: Document, s: (string, string), e: EditError) {
    match e
    case InvalidKey => !config.isValidSequence(s.0, s.1) && !config.isRcKey(s.0)
    case InvalidSequence => !config.isValidSequence(s.0, s.1) && config.isRcKey(s.0)
    case NotASequence => config.isValidSequence(s.0, s.1) && HoldsScalar(doc, s.0)
    case MissingArgument => false
  }

  /** Nothing but lists is added, and only to the keys that are named. */
  ghost predicate OnlyLists(doc: Document, after: Document, keys: set<string>) {
    && (forall k :: HoldsScalar(after, k) <==> HoldsScalar(doc, k))
    && (forall k :: k !in keys ==> (k in after <==> k in doc) && (k in doc ==> after[k] == doc[k]))
    && (forall k <- keys :: k in after)
  }

  lemma OnePair(config: Config, doc: Document, s: (string, string), opt: AddType)
    ensures match AddOne(config, doc, s.0, s.1, opt)
            case Err(e) => Bad(config, doc, s) && Complains(config, doc, s, e)
            case Ok(after) => !Bad(config, doc, s) && OnlyLists(doc, after, {s.0})
  {
  }

  function Keys(specs: seq<(string, string)>): set<string> {
    set s <- specs :: s.0
  }

  lemma SameComplaints(config: Config, doc: Document, after: Document, keys: set<string>)
    requires OnlyLists(doc, after, keys)
    ensures forall s: (string, string) :: Bad(config, after, s) <==> Bad(config, doc, s)
    ensures forall s: (string, string), e :: Complains(config, after, s, e) <==> Complains(config, doc, s, e)
  {
  }

  /** `append` and `prepend` succeed if and only if no pair is bad. Then all keys that are named hold
      lists, and nothing else has changed. Otherwise the complaint is about the first bad pair. */
  lemma {:induction false} RefusedIffBad(config: Config, doc: Document, specs: seq<(string, string)>, opt: AddType)
    ensures match AddPairs(config, doc, specs, opt)
            case Ok(after) => (forall s <- specs :: !Bad(config, doc, s)) && OnlyLists(doc, after, Keys(specs))
            case Err(e) =>
              exists i :: 0 <= i < |specs| && Bad(config, doc, specs[i]) && Complains(config, doc, specs[i], e)
                          && forall j :: 0 <= j < i ==> !Bad(config, doc, specs[j])
    decreases |specs|
  {
    if specs != [] {
      var s, rest := specs[0], specs[1..];
      OnePair(config, doc, s, opt);
      var next := AddOne(config, doc, s.0, s.1, opt);
      if next.Err? {
        assert Bad(config, doc, specs[0]) && Complains(config, doc, specs[0], next.error);
      } else {
        RefusedIffBad(config, next.value, rest, opt);
        SameComplaints(config, doc, next.value, {s.0});
        assert specs == [s] + rest;
        match AddPairs(config, next.value, rest, opt)
        case Ok(after) =>
          assert Keys(specs) == {s.0} + Keys(rest);
        case Err(e) =>
          var i :| 0 <= i < |rest| && Bad(config, next.value, rest[i]) && Complains(config, next.value, rest[i], e)
                   && forall j :: 0 <= j < i ==> !Bad(config, next.value, rest[j]);
          assert Bad(config, doc, specs[i + 1]) && Complains(config, doc, specs[i + 1], e);
          assert forall j :: 0 <= j < i + 1 ==> specs[j] == (if j == 0 then s else rest[j - 1]);
      }
    }
  }

  lemma ScalarStaysOnce(config: Config, doc: Document, c: Command, key: string)
    requires HoldsScalar(doc, key) && c != RemoveKey(key)
    ensures var after := Execute(config, doc, c); key in after && after[key] == doc[key]
  {
    match c
    case Add(specs, opt) =>
      RefusedIffBad(config, doc, specs, opt);
    case Remove(args) =>
      if |args| == 2 {
        RemoveLeavesOthers(doc, args[0], args[1], key);
      }
    case RemoveKey(k) =>
  }

  /** Over all runs: a key that holds a single string keeps it, until the key is removed. */
  lemma {:induction false} ScalarStays(config: Config, doc: Document, cs: seq<Command>, key: string)
    requires HoldsScalar(doc, key) && RemoveKey(key) !in cs
    ensures var after := Run(config, doc, cs); key in after && after[key] == doc[key]
  {
    if cs != [] {
      var n := |cs| - 1;
      assert cs == cs[..n] + [cs[n]];
      ScalarStays(config, doc, cs[..n], key);
      ScalarStaysOnce(config, Run(config, doc, cs[..n]), cs[n], key);
    }
  }

  /** `remove` needs a key and a value; with fewer arguments it complains, with more it does nothing. */
  lemma RemoveNeedsTwo(config: Config, doc: Document, args: seq<string>)
    ensures |args| < 2 ==> RemoveArgs(doc, args) == Err(MissingArgument)
    ensures |args| > 2 ==> RemoveArgs(doc, args) == Ok(doc)
    ensures |args| != 2 ==> Execute(config, doc, Remove(args)) == doc
  {
  }
}
