/** The version scheme of the mamba packages (`version_scheme.py`): at least three
    dot-separated fields, the fourth and later ones forming the pre-release name. */
module VersionScheme {
  import opened Wrappers
  import opened Sequences
  import opened PyText

  datatype FieldError = BadMajor | BadMinor | BadPatch | BadPreRelease

  datatype VersionError =
    | ReservedDash
    | TooFewFields
    | BadFields(errors: seq<FieldError>)

  datatype Version = Version(major: string, minor: string, patch: string, preRelease: string, name: string)

  /** Does the name start with one of the known pre-release types? */
  predicate KnownPreRelease(s: string) {
    "alpha" <= s || "beta" <= s || "rc" <= s || "dev" <= s
  }

  function FieldErrors(major: string, minor: string, patch: string, preRelease: string): seq<FieldError> {
    (if IsDigits(major) then [] else [BadMajor])
    + (if IsDigits(minor) then [] else [BadMinor])
    + (if IsDigits(patch) then [] else [BadPatch])
    + (if preRelease != "" && !KnownPreRelease(preRelease) then [BadPreRelease] else [])
  }

  function Parse(version: string): Result<Version, VersionError> {
    if '-' in version then Err(ReservedDash)
    else
      var fields := Split(version, '.');
      if |fields| < 3 then Err(TooFewFields)
      else
        var preRelease := if |fields| > 3 then Join(".", fields[3..]) else "";
        var errors := FieldErrors(fields[0], fields[1], fields[2], preRelease);
        if errors != [] then Err(BadFields(errors))
        else Ok(Version(fields[0], fields[1], fields[2], preRelease, version))
  }

  /** The object of the source: its fields are filled in one by one before they are judged. */
  class VersionInfo {
    var major: string
    var minor: string
    var patch: string
    var preRelease: string
    var name: string

    constructor ()
      ensures name == ""
    {
      major, minor, patch, preRelease, name := "", "", "", "", "";
    }

    /** What is wrong with the fields, in their order. */
    method CheckFields() returns (errors: seq<FieldError>)
      ensures errors == FieldErrors(major, minor, patch, preRelease)
    {
      errors := [];
      if !IsDigits(major) {
        errors := errors + [BadMajor];
      }
      if !IsDigits(minor) {
        errors := errors + [BadMinor];
      }
      if !IsDigits(patch) {
        errors := errors + [BadPatch];
      }
      if preRelease != "" && !KnownPreRelease(preRelease) {
        errors := errors + [BadPreRelease];
      }
    }

    method Init(version: string) returns (error: Option<VersionError>)
      modifies this
      ensures match Parse(version)
              case Ok(v) => error == None && Version(major, minor, patch, preRelease, name) == v
              case Err(e) => error == Some(e) && name == old(name)
    {
      if '-' in version {
        return Some(ReservedDash);
      }
      var fields := Split(version, '.');
      if |fields| < 3 {
        return Some(TooFewFields);
      }
      major := fields[0];
      minor := fields[1];
      patch := fields[2];
      preRelease := "";
      if |fields| > 3 {
        preRelease := Join(".", fields[3..]);
      }
      var errors := CheckFields();
      if |errors| > 0 {
        return Some(BadFields(errors));
      }
      name := version;
      return None;
    }
  }

  /** What may follow the three number fields: nothing, a lone dot, or a dot and a name of a
      known pre-release type. */
  predicate ValidRemainder(rest: string) {
    || rest == ""
    || rest == "."
    || (rest[0] == '.' && KnownPreRelease(rest[1..]))
  }

  /** The three numbers and the text after them spell the version. */
  predicate Spells(v: string, major: string, minor: string, patch: string, rest: string) {
    v == major + "." + minor + "." + patch + rest
  }

  lemma DigitsHaveNoDot(s: string)
    requires IsDigits(s)
    ensures '.' !in s
  {
  }

  lemma SplitFirst(a: string, s: string)
    requires '.' !in a
    ensures Split(a + "." + s, '.') == [a] + Split(s, '.')
  {
    CutAt(a, '.', s);
  }

  lemma SplitLast(c: string, rest: string)
    requires '.' !in c && (rest == "" || rest[0] == '.')
    ensures Split(c + rest, '.') == [c] + (if rest == "" then [] else Split(rest[1..], '.'))
  {
    if rest == "" {
      assert c + rest == c;
      CutSplits(c, '.');
    } else {
      assert c + rest == c + "." + rest[1..];
      SplitFirst(c, rest[1..]);
    }
  }

  lemma FromTheRight(a: string, dot: string, b: string, c: string, rest: string)
    ensures a + dot + b + dot + c + rest == a + dot + (b + dot + (c + rest))
  {
    Regroup(a + dot + b + dot, c, rest);
    Regroup4(a + dot, b, dot, c + rest);
    Regroup(b, dot, c + rest);
  }

  lemma SplitThree(a: string, b: string, c: string, rest: string)
    requires '.' !in a && '.' !in b && '.' !in c
    requires rest == "" || rest[0] == '.'
    ensures Split(a + "." + b + "." + c + rest, '.')
            == [a, b, c] + (if rest == "" then [] else Split(rest[1..], '.'))
  {
    var others := if rest == "" then [] else Split(rest[1..], '.');
    FromTheRight(a, ".", b, c, rest);
    SplitFirst(a, b + "." + (c + rest));
    SplitFirst(b, c + rest);
    SplitLast(c, rest);
    assert [a] + ([b] + ([c] + others)) == [a, b, c] + others;
  }

  /** A text of three or more fields is its first three and the join of the others. */
  lemma FieldsSpell(v: string)
    requires |Split(v, '.')| >= 3
    ensures var f := Split(v, '.');
            var rest := if |f| > 3 then "." + Join(".", f[3..]) else "";
            Spells(v, f[0], f[1], f[2], rest)
  {
    var f := Split(v, '.');
    SplitJoin(v, '.');
    assert Join(".", f) == f[0] + "." + Join(".", f[1..]);
    assert Join(".", f[1..]) == f[1] + "." + Join(".", f[2..]);
    assert f[1..][1..] == f[2..] && f[2..][1..] == f[3..];
    if |f| > 3 {
      assert Join(".", f[2..]) == f[2] + "." + Join(".", f[3..]);
    }
  }

  /** Exactly the strings without `-` that are three numbers and a valid remainder are accepted. */
  lemma Accepts(v: string)
    ensures Parse(v).Ok? <==>
            && '-' !in v
            && exists a, b, c, rest ::
              && Spells(v, a, b, c, rest)
              && IsDigits(a) && IsDigits(b) && IsDigits(c)
              && ValidRemainder(rest)
  {
    if Parse(v).Ok? {
      var f := Split(v, '.');
      FieldsSpell(v);
      var rest := if |f| > 3 then "." + Join(".", f[3..]) else "";
      assert Spells(v, f[0], f[1], f[2], rest) && ValidRemainder(rest);
    }
    if '-' !in v && exists a, b, c, rest ::
         Spells(v, a, b, c, rest) && IsDigits(a) && IsDigits(b) && IsDigits(c) && ValidRemainder(rest) {
      var a, b, c, rest :| Spells(v, a, b, c, rest) && IsDigits(a) && IsDigits(b) && IsDigits(c)
                           && ValidRemainder(rest);
      ParsesTo(v, a, b, c, rest);
    }
  }

  /** The parts of an accepted version are the ones it was spelled from. */
  lemma ParsesTo(v: string, a: string, b: string, c: string, rest: string)
    requires '-' !in v && Spells(v, a, b, c, rest)
    requires IsDigits(a) && IsDigits(b) && IsDigits(c) && ValidRemainder(rest)
    ensures Parse(v) == Ok(Version(a, b, c, if rest == "" then "" else rest[1..], v))
  {
    DigitsHaveNoDot(a);
    DigitsHaveNoDot(b);
    DigitsHaveNoDot(c);
    SplitThree(a, b, c, rest);
    if rest != "" {
      SplitJoin(rest[1..], '.');
      assert Split(v, '.')[3..] == Split(rest[1..], '.');
    }
  }

  function Rejoin(v: Version): string {
    v.major + "." + v.minor + "." + v.patch + (if v.preRelease == "" then "" else "." + v.preRelease)
  }

  /** Joining the parsed parts gives back the name unless the name ends in a lone dot after
      the three numbers, which the parser lets through and forgets. */
  lemma RejoinsUnlessTrailingDot(s: string)
    requires Parse(s).Ok?
    ensures var v := Parse(s).value;
            && (Rejoin(v) == s <==> s != v.major + "." + v.minor + "." + v.patch + ".")
            && v.name == s
  {
    var f := Split(s, '.');
    FieldsSpell(s);
    var v := Parse(s).value;
    var rest := if |f| > 3 then "." + Join(".", f[3..]) else "";
    if |f| > 3 && v.preRelease == "" {
      assert |Rejoin(v)| < |s|;
    }
    var base := v.major + "." + v.minor + "." + v.patch;
    assert s == base + rest;
    if v.preRelease != "" {
      assert |rest| > 1;
    }
  }

  /** Such names exist: every three numbers with a dot behind them. */
  lemma TrailingDotIsForgotten(a: string, b: string, c: string)
    requires IsDigits(a) && IsDigits(b) && IsDigits(c)
    ensures var s := a + "." + b + "." + c + ".";
            Parse(s).Ok? && Rejoin(Parse(s).value) == a + "." + b + "." + c
  {
    var s := a + "." + b + "." + c + ".";
    ParsesTo(s, a, b, c, ".");
    assert a + "." + b + "." + c + "" == a + "." + b + "." + c;
  }

  // ---------- which complaint ----------

  /** A name that starts with one of the four known types. */
  predicate IsKnownType(s: string) {
    "alpha" <= s || "beta" <= s || "rc" <= s || "dev" <= s
  }

  /** The complaints about the fields: each is there if and only if its field is wrong, and they come in
      the order of the fields. */
  lemma FieldErrorsAre(major: string, minor: string, patch: string, preRelease: string)
    ensures var errors := FieldErrors(major, minor, patch, preRelease);
            && (BadMajor in errors <==> !IsDigits(major))
            && (BadMinor in errors <==> !IsDigits(minor))
            && (BadPatch in errors <==> !IsDigits(patch))
            && (BadPreRelease in errors <==> preRelease != "" && !IsKnownType(preRelease))
            && forall i, j :: 0 <= i < j < |errors| ==> Rank(errors[i]) < Rank(errors[j])
  {
  }

  function Rank(e: FieldError): nat {
    match e
    case BadMajor => 0
    case BadMinor => 1
    case BadPatch => 2
    case BadPreRelease => 3
  }

  function Count(s: string, c: char): nat {
    if s == "" then 0 else (if s[0] == c then 1 else 0) + Count(s[1..], c)
  }

  lemma {:induction false} CountConcat(a: string, b: string, c: char)
    ensures Count(a + b, c) == Count(a, c) + Count(b, c)
  {
    if a == "" {
      assert a + b == b;
    } else {
      assert (a + b)[1..] == a[1..] + b;
      CountConcat(a[1..], b, c);
    }
  }

  lemma {:induction false} CountNone(s: string, c: char)
    ensures Count(s, c) == 0 <==> c !in s
  {
    if s != "" {
      assert s == [s[0]] + s[1..];
      CountNone(s[1..], c);
    }
  }

  /** One field more than there are dots. */
  lemma {:induction false} FieldsAreCounted(s: string, c: char)
    ensures |Split(s, c)| == Count(s, c) + 1
    decreases |s|
  {
    CutSplits(s, c);
    match Cut(s, c)
    case None => CountNone(s, c);
    case Some((a, b)) =>
      FieldsAreCounted(b, c);
      CountNone(a, c);
      CountConcat(a + [c], b, c);
      CountConcat(a, [c], c);
      assert [c][1..] == "";
  }

  /** A version is refused for its dash first, then for too few dots, then for its fields, all of whose
      faults are named. */
  lemma Refusals(v: string)
    ensures Parse(v) == Err(ReservedDash) <==> '-' in v
    ensures Parse(v) == Err(TooFewFields) <==> '-' !in v && Count(v, '.') < 2
    ensures Parse(v).Err? && Parse(v).error.BadFields? <==>
              && '-' !in v && Count(v, '.') >= 2
              && var f := Split(v, '.');
                 !(IsDigits(f[0]) && IsDigits(f[1]) && IsDigits(f[2])
                   && (|f| == 3 || Join(".", f[3..]) == "" || IsKnownType(Join(".", f[3..]))))
    ensures Parse(v).Err? && Parse(v).error.BadFields? ==>
              var f := Split(v, '.');
              |f| >= 3 && Parse(v).error.errors
                          == FieldErrors(f[0], f[1], f[2], if |f| > 3 then Join(".", f[3..]) else "")
  {
    FieldsAreCounted(v, '.');
  }
}
