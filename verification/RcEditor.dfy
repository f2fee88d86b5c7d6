/** The commands that edit the list-valued keys of an rc file (`micromamba config append`,
    `prepend`, `remove` and `remove-key`, in `micromamba/src/config.cpp`). */
module RcEditor {
  import opened Wrappers
  import opened Sequences

  // ---------- the rc file ----------

  /** A value in the file: a list of strings, or a single string. */
  datatype Node = Scalar(text: string) | Sequence(values: seq<string>)

  type Document = map<string, Node>

  /** What the configuration knows: which keys may be given which text as a list, and the list
      such a text stands for. */
  datatype Config = Config(
    isRcKey: string -> bool,
    isValidSequence: (string, string) -> bool,
    deserialize: string -> seq<string>)

  datatype AddType = Append | Prepend

  datatype EditError = InvalidKey | InvalidSequence | NotASequence | MissingArgument

  // ---------- lists ----------

  /** The values of `xs` that are not in `vs`, in order. */
  function Without(xs: seq<string>, vs: seq<string>): seq<string> {
    if xs == [] then []
    else (if xs[0] in vs then [] else [xs[0]]) + Without(xs[1..], vs)
  }

  function Added(existing: seq<string>, values: seq<string>, opt: AddType): seq<string> {
    var rest := Without(existing, values);
    match opt
    case Append => rest + values
    case Prepend => values + rest
  }

  lemma {:induction false} WithoutConcat(xs: seq<string>, ys: seq<string>, vs: seq<string>)
    ensures Without(xs + ys, vs) == Without(xs, vs) + Without(ys, vs)
  {
    if xs == [] {
      assert xs + ys == ys;
    } else {
      assert (xs + ys)[1..] == xs[1..] + ys;
      WithoutConcat(xs[1..], ys, vs);
    }
  }

  lemma {:induction false} WithoutMember(xs: seq<string>, vs: seq<string>, x: string)
    ensures x in Without(xs, vs) <==> x in xs && x !in vs
  {
    if xs != [] {
      assert xs == [xs[0]] + xs[1..];
      WithoutMember(xs[1..], vs, x);
    }
  }

  lemma {:induction false} WithoutNothing(xs: seq<string>, vs: seq<string>)
    requires forall x <- xs :: x !in vs
    ensures Without(xs, vs) == xs
  {
    if xs != [] {
      assert xs[0] in xs && forall x <- xs[1..] :: x in xs;
      WithoutNothing(xs[1..], vs);
    }
  }

  lemma {:induction false} WithoutEverything(xs: seq<string>, vs: seq<string>)
    requires forall x <- xs :: x in vs
    ensures Without(xs, vs) == []
  {
    if xs != [] {
      assert xs[0] in xs && forall x <- xs[1..] :: x in xs;
      WithoutEverything(xs[1..], vs);
    }
  }

  /** Removing one list of values and then another is removing both. */
  lemma {:induction false} WithoutTwice(xs: seq<string>, vs: seq<string>, ws: seq<string>)
    ensures Without(Without(xs, vs), ws) == Without(xs, vs + ws)
  {
    if xs != [] {
      WithoutTwice(xs[1..], vs, ws);
      if xs[0] in vs {
        assert Without(xs, vs) == Without(xs[1..], vs);
      } else {
        assert Without(xs, vs)[1..] == Without(xs[1..], vs);
      }
    }
  }

  lemma {:induction false} WithoutKeepsUnique(xs: seq<string>, vs: seq<string>)
    requires NoDuplicates(xs)
    ensures NoDuplicates(Without(xs, vs))
  {
    if xs != [] {
      WithoutKeepsUnique(xs[1..], vs);
      WithoutMember(xs[1..], vs, xs[0]);
      assert forall i :: 0 <= i < |xs[1..]| ==> xs[1..][i] == xs[i + 1];
    }
  }

  // ---------- the backward erase loop ----------

  /** One pass of the loop: the iterator is an index that is moved down before each look, and
      erasing leaves it where the next value now is. */
  method EraseAll(existing: seq<string>, v: string) returns (xs: seq<string>)
    ensures xs == Without(existing, [v])
  {
    xs := existing;
    var pos := |xs|;
    assert existing[..pos] + Without(existing[pos..], [v]) == existing;
    while 0 <= pos - 1
      invariant 0 <= pos <= |existing|
      invariant xs == existing[..pos] + Without(existing[pos..], [v])
    {
      pos := pos - 1;
      assert existing[..pos + 1] == existing[..pos] + [existing[pos]];
      assert existing[pos..] == [existing[pos]] + existing[pos + 1..];
      if xs[pos] == v {
        xs := xs[..pos] + xs[pos + 1..];
      }
    }
    assert existing[0..] == existing;
  }

  /** The loop over the new values around it. */
  method EraseEach(existing: seq<string>, values: seq<string>) returns (xs: seq<string>)
    ensures xs == Without(existing, values)
  {
    xs := existing;
    WithoutNothing(existing, []);
    for i := 0 to |values|
      invariant xs == Without(existing, values[..i])
    {
      WithoutTwice(existing, values[..i], [values[i]]);
      assert values[..i + 1] == values[..i] + [values[i]];
      xs := EraseAll(xs, values[i]);
    }
    assert values[..|values|] == values;
  }

  // ---------- append and prepend ----------

  /** The effect of one `key value` pair on the document. */
  function AddOne(config: Config, doc: Document, key: string, value: string, opt: AddType)
      : Result<Document, EditError>
  {
    if !config.isValidSequence(key, value) then
      Err(if config.isRcKey(key) then InvalidSequence else InvalidKey)
    else
      var values := config.deserialize(value);
      if key in doc then
        if doc[key].Scalar? then Err(NotASequence)
        else Ok(doc[key := Sequence(Added(doc[key].values, values, opt))])
      else Ok(doc[key := Sequence(values)])
  }

  /** All pairs in order; the first one that fails spoils the command. */
  function AddPairs(config: Config, doc: Document, specs: seq<(string, string)>, opt: AddType)
      : Result<Document, EditError>
    decreases |specs|
  {
    if specs == [] then Ok(doc)
    else
      var next :- AddOne(config, doc, specs[0].0, specs[0].1, opt);
      AddPairs(config, next, specs[1..], opt)
  }

  /** The document in memory, as the YAML library holds it. */
  class Yaml {
    var entries: Document

    constructor (doc: Document)
      ensures entries == doc
    {
      entries := doc;
    }

    method SetSequence(config: Config, key: string, value: string, opt: AddType)
        returns (error: Option<EditError>)
      modifies this
      ensures match AddOne(config, old(entries), key, value, opt)
              case Ok(doc) => error == None && entries == doc
              case Err(e) => error == Some(e)
    {
      if !config.isValidSequence(key, value) {
        if !config.isRcKey(key) {
          return Some(InvalidKey);
        } else {
          return Some(InvalidSequence);
        }
      }
      var values := config.deserialize(value);
      if key in entries {
        if entries[key].Scalar? {
          return Some(NotASequence);
        }
        var existing := entries[key].values;
        existing := EraseEach(existing, values);
        if opt == Append {
          existing := existing + values;
        } else {
          existing := values + existing;
        }
        entries := entries[key := Sequence(existing)];
      } else {
        entries := entries[key := Sequence(values)];
      }
      return None;
    }
  }

  // ---------- remove and remove-key ----------

  /** The list without its first occurrence of a value. */
  function RemoveFirst(xs: seq<string>, v: string): seq<string> {
    if xs == [] then []
    else if xs[0] == v then xs[1..]
    else [xs[0]] + RemoveFirst(xs[1..], v)
  }

  function RemoveValue(doc: Document, key: string, v: string): Document {
    if key !in doc || doc[key].Scalar? || v !in doc[key].values then doc
    else if |doc[key].values| == 1 then doc - {key}
    else doc[key := Sequence(RemoveFirst(doc[key].values, v))]
  }

  function RemoveArgs(doc: Document, args: seq<string>): Result<Document, EditError> {
    if |args| < 2 then Err(MissingArgument)
    else if |args| > 2 then Ok(doc)
    else Ok(RemoveValue(doc, args[0], args[1]))
  }

  lemma {:induction false} RemoveFirstAt(xs: seq<string>, i: nat)
    requires i < |xs| && xs[i] !in xs[..i]
    ensures RemoveFirst(xs, xs[i]) == xs[..i] + xs[i + 1..]
  {
    if i > 0 {
      assert xs[0] == xs[..i][0];
      assert xs[1..][..i - 1] == xs[..i][1..];
      RemoveFirstAt(xs[1..], i - 1);
      assert xs[1..][i..] == xs[i + 1..];
      assert xs[..i] == [xs[0]] + xs[1..][..i - 1];
    }
  }

  /** An rc file and the commands that rewrite it. */
  class RcFile {
    var contents: Document

    constructor (doc: Document)
      ensures contents == doc
    {
      contents := doc;
    }

    /** `append` and `prepend`: the file is written only after every pair has been accepted. */
    method SetSequences(config: Config, specs: seq<(string, string)>, opt: AddType)
        returns (error: Option<EditError>)
      modifies this
      ensures match AddPairs(config, old(contents), specs, opt)
              case Ok(doc) => error == None && contents == doc
              case Err(e) => error == Some(e) && contents == old(contents)
    {
      var node := new Yaml(contents);
      for i := 0 to |specs|
        invariant contents == old(contents)
        invariant AddPairs(config, old(contents), specs, opt) == AddPairs(config, node.entries, specs[i..], opt)
      {
        assert specs[i..][1..] == specs[i + 1..];
        var bad := node.SetSequence(config, specs[i].0, specs[i].1, opt);
        if bad.Some? {
          return bad;
        }
      }
      contents := node.entries;
      return None;
    }

    /** `remove-key`. */
    method RemoveKey(key: string) returns (removed: bool)
      modifies this
      ensures contents == old(contents) - {key} && (removed <==> key in old(contents))
    {
      var node := new Yaml(contents);
      removed := false;
      if key in node.entries {
        node.entries := node.entries - {key};
        removed := true;
      }
      contents := node.entries;
    }

    /** `remove`: the first hit ends the loop. */
    method Remove(args: seq<string>) returns (error: Option<EditError>)
      modifies this
      ensures match RemoveArgs(old(contents), args)
              case Ok(doc) => error == None && contents == doc
              case Err(e) => error == Some(e) && contents == old(contents)
    {
      if |args| < 2 {
        return Some(MissingArgument);
      }
      var key, v := args[0], args[1];
      if |args| > 2 {
        return None;
      }
      var node := new Yaml(contents);
      if key in node.entries && node.entries[key].Sequence? {
        var xs := node.entries[key].values;
        var i := 0;
        while i < |xs|
          invariant 0 <= i <= |xs| && v !in xs[..i]
          invariant node.entries == old(contents)
        {
          if |xs| == 1 && xs[i] == v {
            node.entries := node.entries - {key};
            break;
          } else if xs[i] == v {
            RemoveFirstAt(xs, i);
            node.entries := node.entries[key := Sequence(xs[..i] + xs[i + 1..])];
            break;
          }
          i := i + 1;
        }
      }
      contents := node.entries;
      return None;
    }
  }
}
