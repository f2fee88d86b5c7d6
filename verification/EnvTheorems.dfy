/** What the two formats of `env export` say of an environment, for every record, history and flag. */
module EnvTheorems {
  import opened Wrappers
  import opened Sequences
  import opened PyText
  import opened Json
  import opened EnvExport
  import opened EnvJson
  import opened EnvYaml

  // ---------- which environments need no escaping ----------

  /** The channel a record is shown with. */
  function ShownChannel(env: Environment, v: Record): string {
    var chans := env.displayNames(v.channel);
    if |chans| == 1 then chans[0] else v.channel
  }

  /** What is printed of a record holds no character that needs escaping. */
  predicate CleanRecord(env: Environment, opts: Options, key: string, v: Record)
    requires !Skipped(env, opts, key)
  {
    if opts.fromHistory then Clean(env.requested[key])
    else
      && Clean(v.name) && Clean(v.version)
      && (!opts.noBuild ==> Clean(v.buildString))
      && (opts.noMd5 == -1 ==> Clean(v.md5))
      && (opts.channelSubdir ==> Clean(ShownChannel(env, v)) && Clean(v.platform))
  }

  predicate CleanRecords(env: Environment, opts: Options, records: seq<(string, Record)>) {
    forall r <- records :: !Skipped(env, opts, r.0) ==> CleanRecord(env, opts, r.0, r.1)
  }

  predicate CleanPips(pips: seq<PipRecord>) {
    forall p <- pips :: Clean(p.name) && Clean(p.version)
  }

  predicate CleanEnvironment(env: Environment, opts: Options) {
    CleanRecords(env, opts, env.records) && CleanPips(env.pipRecords)
  }

  lemma CleanConcat(a: string, b: string)
    ensures Clean(a + b) <==> Clean(a) && Clean(b)
  {
    assert forall c <- a :: c in a + b;
    assert forall c <- b :: c in a + b;
  }

  lemma CleanFour(a: string, b: string, c: string, d: string)
    ensures Clean(a + b + c + d) <==> Clean(a) && Clean(b) && Clean(c) && Clean(d)
  {
    CleanConcat(a + b + c, d);
    CleanConcat(a + b, c);
    CleanConcat(a, b);
  }

  lemma CleanSubdir(env: Environment, opts: Options, v: Record)
    ensures Clean(SubdirPart(env, opts, v))
            <==> (opts.channelSubdir ==> Clean(ShownChannel(env, v)) && Clean(v.platform))
  {
    CleanFour(ShownChannel(env, v), "/", v.platform, "::");
  }

  lemma CleanDependency(env: Environment, opts: Options, key: string, v: Record)
    requires !Skipped(env, opts, key)
    ensures Clean(Dependency(env, opts, key, v)) <==> CleanRecord(env, opts, key, v)
  {
    if !opts.fromHistory {
      CleanFour(SubdirPart(env, opts, v), v.name + "=" + v.version, BuildPart(opts, v), Md5Part(opts, v));
      CleanSubdir(env, opts, v);
      CleanFour(v.name, "=", v.version, "");
      assert v.name + "=" + v.version + "" == v.name + "=" + v.version;
      CleanConcat("=", v.buildString);
      CleanFour("[md5=", v.md5, "]", "");
      assert "[md5=" + v.md5 + "]" + "" == "[md5=" + v.md5 + "]";
    }
  }

  /** The dependencies are clean if and only if all that is printed of the kept records is. */
  lemma {:induction false} CleanDependencies(env: Environment, opts: Options, records: seq<(string, Record)>)
    ensures AllClean(Dependencies(env, opts, records)) <==> CleanRecords(env, opts, records)
  {
    if records != [] {
      var (k, v) := records[0];
      var rest := Dependencies(env, opts, records[1..]);
      CleanDependencies(env, opts, records[1..]);
      assert CleanRecords(env, opts, records) <==>
             (!Skipped(env, opts, k) ==> CleanRecord(env, opts, k, v)) && CleanRecords(env, opts, records[1..]) by {
        assert records == [records[0]] + records[1..];
      }
      if !Skipped(env, opts, k) {
        var d := Dependency(env, opts, k, v);
        CleanDependency(env, opts, k, v);
        assert Dependencies(env, opts, records) == [d] + rest;
        CleanTail([d] + rest);
      } else {
        assert Dependencies(env, opts, records) == rest;
      }
    }
  }

  lemma {:induction false} CleanPipStrings(pips: seq<PipRecord>)
    ensures AllClean(PipStrings(pips)) <==> CleanPips(pips)
  {
    if pips != [] {
      var p := pips[0];
      CleanPipStrings(pips[1..]);
      CleanFour(p.name, "==", p.version, "");
      assert p.name + "==" + p.version + "" == p.name + "==" + p.version;
      CleanTail(PipStrings(pips));
      assert pips == [p] + pips[1..];
    }
  }

  // ---------- what is listed ----------

  /** The specs that were asked for, of the records that were, in the order of the records. */
  function RequestedSpecs(requested: map<string, string>, records: seq<(string, Record)>): seq<string> {
    if records == [] then []
    else (if records[0].0 in requested then [requested[records[0].0]] else [])
         + RequestedSpecs(requested, records[1..])
  }

  /** With `--from-history` the dependencies are the requested specs, to the letter. */
  lemma {:induction false} HistoryIsListed(env: Environment, opts: Options, records: seq<(string, Record)>)
    requires opts.fromHistory
    ensures Dependencies(env, opts, records) == RequestedSpecs(env.requested, records)
  {
    if records != [] {
      HistoryIsListed(env, opts, records[1..]);
    }
  }

  /** Without it there is one dependency for each record, in order. */
  lemma {:induction false} EveryRecordIsListed(env: Environment, opts: Options, records: seq<(string, Record)>)
    requires !opts.fromHistory
    ensures |Dependencies(env, opts, records)| == |records|
    ensures forall i :: 0 <= i < |records| ==>
              Dependencies(env, opts, records)[i] == Dependency(env, opts, records[i].0, records[i].1)
  {
    if records != [] {
      var rest := records[1..];
      EveryRecordIsListed(env, opts, rest);
      var all := Dependencies(env, opts, records);
      assert all[0] == Dependency(env, opts, records[0].0, records[0].1);
      assert all[1..] == Dependencies(env, opts, rest);
      assert forall i :: 1 <= i < |records| ==> all[i] == all[1..][i - 1] && records[i] == rest[i - 1];
    }
  }

  /** The channels are those that some listed record stands for. */
  lemma {:induction false} ChannelsAre(env: Environment, opts: Options, records: seq<(string, Record)>, c: string)
    ensures c in Channels(env, opts, records) <==>
            exists r <- records :: (opts.fromHistory ==> r.0 in env.requested) && c in env.displayNames(r.1.channel)
  {
    if records != [] {
      assert records == [records[0]] + records[1..];
      ChannelsAre(env, opts, records[1..], c);
    }
  }

  /** One entry for each wheel, in order, with two equality signs between name and version. */
  lemma {:induction false} WheelsAre(pips: seq<PipRecord>)
    ensures |PipStrings(pips)| == |pips|
    ensures forall i :: 0 <= i < |pips| ==> PipStrings(pips)[i] == pips[i].name + "==" + pips[i].version
  {
    if pips != [] {
      WheelsAre(pips[1..]);
    }
  }

  // ---------- the two formats ----------

  /** What either format should say of the dependencies. */
  function ExpectedOf(env: Environment, opts: Options): seq<Json> {
    Expected(Dependencies(env, opts, env.records), PipStrings(env.pipRecords))
  }

  /** For all environments and flags: the JSON branch hands over what it should if and only if
      nothing that is printed needs escaping. */
  lemma JsonBranchFaithful(env: Environment, opts: Options)
    ensures JsonResult(env, opts)
            == Some(JsonExport(Channels(env, opts, env.records), Arr(ExpectedOf(env, opts))))
            <==> CleanEnvironment(env, opts)
  {
    JsonFaithful(Dependencies(env, opts, env.records), PipStrings(env.pipRecords));
    CleanDependencies(env, opts, env.records);
    CleanPipStrings(env.pipRecords);
  }

  /** The YAML text of an environment, with its channels in some order. */
  function YamlOf(env: Environment, opts: Options, cs: seq<string>): string {
    YamlText(env.name, cs, Dependencies(env, opts, env.records), PipStrings(env.pipRecords), env.prefix)
  }

  predicate PlainEnvironment(env: Environment, opts: Options, cs: seq<string>) {
    && Plain(env.name) && AllPlain(cs) && Plain(env.prefix)
    && AllPlain(Dependencies(env, opts, env.records)) && AllPlain(PipStrings(env.pipRecords))
  }

  /** For all environments and flags: the YAML branch writes what it should if and only if all that
      it writes are plain scalars. */
  lemma YamlBranchFaithful(env: Environment, opts: Options, cs: seq<string>)
    ensures ReadDocument(YamlOf(env, opts, cs))
            == Some(YamlDocument(env.name, cs, ExpectedOf(env, opts), env.prefix))
            <==> PlainEnvironment(env, opts, cs)
  {
    DocumentFaithful(env.name, cs, Dependencies(env, opts, env.records), PipStrings(env.pipRecords), env.prefix);
  }

  /** The same dependencies, wheels and channels are read from either format. */
  predicate Agree(env: Environment, opts: Options, cs: seq<string>) {
    var json, yaml := JsonResult(env, opts), ReadDocument(YamlOf(env, opts, cs));
    && json.Some? && yaml.Some?
    && json.value.dependencies == Arr(yaml.value.dependencies)
    && json.value.channels == set c | c in yaml.value.channels
  }

  /** The two formats agree on every environment for which the YAML text is in order, if and only if
      nothing that is printed needs escaping in JSON. */
  lemma FormatsAgree(env: Environment, opts: Options, cs: seq<string>)
    requires (set c | c in cs) == Channels(env, opts, env.records)
    requires PlainEnvironment(env, opts, cs)
    ensures Agree(env, opts, cs) <==> CleanEnvironment(env, opts)
  {
    JsonBranchFaithful(env, opts);
    YamlBranchFaithful(env, opts, cs);
  }

  // ---------- installed packages ----------

  /** Text without blanks and invisible characters. */
  predicate Solid(x: string) {
    forall c <- x :: IsVisible(c)
  }

  lemma SolidIsPlain(x: string)
    requires Solid(x) && x != "" && x[0] !in INDICATORS && x[|x| - 1] != ':'
    ensures Plain(x)
  {
    assert '#' in INDICATORS;
    assert forall i :: 0 <= i < |x| ==> x[i] in x;
  }

  lemma SolidConcat(a: string, b: string)
    requires Solid(a) && Solid(b)
    ensures Solid(a + b)
  {
  }

  lemma SolidFour(a: string, b: string, c: string, d: string)
    requires Solid(a) && Solid(b) && Solid(c) && Solid(d)
    ensures Solid(a + b + c + d)
  {
    SolidConcat(a, b);
    SolidConcat(a + b, c);
    SolidConcat(a + b + c, d);
  }

  /** Packages as they are named: fields without blanks, names and channels that do not begin with
      a sign that YAML gives a meaning, versions and builds that do not end in a colon. */
  predicate Ordinary(env: Environment, v: Record) {
    && Solid(v.name) && Solid(v.version) && Solid(v.buildString) && Solid(v.md5)
    && Solid(ShownChannel(env, v)) && Solid(v.platform)
    && v.name != "" && v.name[0] !in INDICATORS
    && ShownChannel(env, v) != "" && ShownChannel(env, v)[0] !in INDICATORS
    && (v.version != "" ==> v.version[|v.version| - 1] != ':')
    && (v.buildString != "" ==> v.buildString[|v.buildString| - 1] != ':')
  }

  /** An installed package is a plain scalar, whatever the flags. */
  lemma OrdinaryIsPlain(env: Environment, opts: Options, key: string, v: Record)
    requires !opts.fromHistory && Ordinary(env, v)
    ensures Plain(Dependency(env, opts, key, v))
  {
    var a, b := SubdirPart(env, opts, v), v.name + "=" + v.version;
    var c, d := BuildPart(opts, v), Md5Part(opts, v);
    SolidFour(ShownChannel(env, v), "/", v.platform, "::");
    SolidFour(v.name, "=", v.version, "");
    SolidFour("[md5=", v.md5, "]", "");
    SolidFour(a, b, c, d);
    HeadOf(a, b, c, d);
    LastOf(a, b, c, d);
    SolidIsPlain(a + b + c + d);
  }

  lemma HeadOf(a: string, b: string, c: string, d: string)
    requires b != ""
    ensures (a + b + c + d)[0] == if a == "" then b[0] else a[0]
  {
  }

  lemma LastOf(a: string, b: string, c: string, d: string)
    requires b != ""
    ensures var x := a + b + c + d;
            x[|x| - 1] == if d != "" then d[|d| - 1] else if c != "" then c[|c| - 1] else b[|b| - 1]
  {
  }

  // ---------- requested specs ----------

  /** With a dependency in which a quotation mark ends the string, and nothing that may follow an
      item comes next, the JSON branch fails, whatever stands before and after it. */
  lemma BrokenDependency(env: Environment, opts: Options, before: seq<string>, d: string, after: seq<string>,
                         x: string, y: string)
    requires Dependencies(env, opts, env.records) == before + [d] + after
    requires AllClean(before) && BreaksOff(d, x, y)
    ensures JsonResult(env, opts) == None
  {
    BrokenText(before, d, after, x, y, PipStrings(env.pipRecords));
  }

  const SPEC := "python[version=\">=3.8,<3.11\"]"

  lemma SpecBreaksOff()
    ensures BreaksOff(SPEC, "python[version=", ">=3.8,<3.11\"]")
  {
  }

  lemma SpecIsPlain()
    ensures Plain(SPEC)
  {
    assert SPEC[0] == 'p' && SPEC[|SPEC| - 1] == ']';
    SolidIsPlain(SPEC);
  }

  /** Such an environment: python was requested with a range of versions, which a spec prints between
      quotation marks. With `--from-history`, the JSON branch fails, and the YAML branch does not. */
  lemma RequestedRange(env: Environment, opts: Options, v: Record, cs: seq<string>)
    requires opts.fromHistory && env.records == [("python", v)] && env.pipRecords == []
    requires env.requested == map["python" := SPEC]
    requires Plain(env.name) && AllPlain(cs) && Plain(env.prefix)
    ensures JsonResult(env, opts) == None
    ensures ReadDocument(YamlOf(env, opts, cs)) == Some(YamlDocument(env.name, cs, [Str(SPEC)], env.prefix))
  {
    var ds := Dependencies(env, opts, env.records);
    assert env.records[1..] == [] && Dependencies(env, opts, []) == [];
    assert ds == [SPEC] == [] + [SPEC] + [];
    SpecBreaksOff();
    BrokenDependency(env, opts, [], SPEC, [], "python[version=", ">=3.8,<3.11\"]");
    SpecIsPlain();
    YamlBranchFaithful(env, opts, cs);
    assert Strings([SPEC]) == [Str(SPEC)];
  }

  // ---------- telling the fields apart ----------

  /** The text before and after the first two colons in a row. */
  function CutColons(s: string): Option<(string, string)> {
    if |s| < 2 then None
    else if s[0] == ':' && s[1] == ':' then Some(("", s[2..]))
    else
      match CutColons(s[1..])
      case None => None
      case Some((a, b)) => Some(([s[0]] + a, b))
  }

  /** No two colons in a row, and none at the end. */
  predicate NoColons(s: string) {
    forall i :: 0 <= i < |s| && s[i] == ':' ==> i + 1 < |s| && s[i + 1] != ':'
  }

  lemma {:induction false} CutColonsAt(a: string, b: string)
    requires NoColons(a)
    ensures CutColons(a + "::" + b) == Some((a, b))
  {
    var s := a + "::" + b;
    if a == "" {
      assert s == "::" + b;
    } else {
      assert s[1..] == a[1..] + "::" + b;
      assert NoColons(a[1..]) by {
        assert forall i :: 0 <= i < |a[1..]| ==> a[1..][i] == a[i + 1];
      }
      assert a[0] == ':' ==> a[1] != ':' && s[1] == a[1];
      CutColonsAt(a[1..], b);
      assert [a[0]] + a[1..] == a;
    }
  }

  /** What a dependency says of a package: where it is from, name, version and build, its checksum. */
  datatype Fields = Fields(place: string, parts: seq<string>, md5: string)

  function ReadMd5(opts: Options, s: string): Option<(string, string)> {
    if opts.noMd5 != -1 then Some((s, ""))
    else
      match Cut(s, '[')
      case None => None
      case Some((a, b)) => if "md5=" <= b && |b| > 4 then Some((a, b[4..|b| - 1])) else None
  }

  function ReadPlace(opts: Options, s: string): Option<(string, string)> {
    if opts.channelSubdir then CutColons(s) else Some(("", s))
  }

  function ReadDependency(opts: Options, d: string): Option<Fields> {
    match ReadPlace(opts, d)
    case None => None
    case Some((place, rest)) =>
      match ReadMd5(opts, rest)
      case None => None
      case Some((fields, md5)) => Some(Fields(place, Split(fields, '='), md5))
  }

  function PartsOf(opts: Options, v: Record): seq<string> {
    [v.name, v.version] + (if opts.noBuild then [] else [v.buildString])
  }

  lemma PartsRead(opts: Options, v: Record)
    requires '=' !in v.name && '=' !in v.version && '=' !in v.buildString
    ensures Split(v.name + "=" + v.version + BuildPart(opts, v), '=') == PartsOf(opts, v)
  {
    var d := v.name + "=" + v.version + BuildPart(opts, v);
    if opts.noBuild {
      assert d == Join("=", [v.name, v.version]);
      JoinSplit([v.name, v.version], '=');
    } else {
      var fields := [v.name, v.version, v.buildString];
      assert fields[1..] == [v.version, v.buildString];
      assert Join("=", [v.version, v.buildString]) == v.version + "=" + v.buildString;
      assert d == v.name + "=" + (v.version + "=" + v.buildString);
      JoinSplit(fields, '=');
    }
  }

  lemma Md5Read(opts: Options, fields: string, md5: string)
    requires '[' !in fields
    ensures ReadMd5(opts, fields + (if opts.noMd5 == -1 then "[md5=" + md5 + "]" else ""))
         == Some((fields, if opts.noMd5 == -1 then md5 else ""))
  {
    if opts.noMd5 == -1 {
      var tail := "md5=" + md5 + "]";
      assert fields + ("[md5=" + md5 + "]") == fields + "[" + tail;
      CutAt(fields, '[', tail);
      assert tail[4..|tail| - 1] == md5;
    } else {
      assert fields + "" == fields;
    }
  }

  lemma PlaceRead(opts: Options, place: string, rest: string)
    requires NoColons(place)
    ensures ReadPlace(opts, (if opts.channelSubdir then place + "::" else "") + rest)
         == Some((if opts.channelSubdir then place else "", rest))
  {
    if opts.channelSubdir {
      CutColonsAt(place, rest);
    } else {
      assert "" + rest == rest;
    }
  }

  predicate NoSigns(x: string) {
    '=' !in x && '[' !in x
  }

  /** Whatever the flags, the parts of a dependency can be told apart again, when none of them holds
      the sign that ends it. */
  lemma DependencyFields(env: Environment, opts: Options, key: string, v: Record)
    requires !opts.fromHistory
    requires NoSigns(v.name) && NoSigns(v.version) && NoSigns(v.buildString)
    requires NoColons(ShownChannel(env, v) + "/" + v.platform)
    ensures ReadDependency(opts, Dependency(env, opts, key, v))
         == Some(Fields(if opts.channelSubdir then ShownChannel(env, v) + "/" + v.platform else "",
                        PartsOf(opts, v), if opts.noMd5 == -1 then v.md5 else ""))
  {
    var fields := v.name + "=" + v.version + BuildPart(opts, v);
    PartsRead(opts, v);
    NoBracket(v.name, v.version, v.buildString, opts.noBuild);
    Md5Read(opts, fields, v.md5);
    PlaceRead(opts, ShownChannel(env, v) + "/" + v.platform, fields + Md5Part(opts, v));
    Regroup4(SubdirPart(env, opts, v), v.name + "=" + v.version, BuildPart(opts, v), Md5Part(opts, v));
    Regroup(v.name + "=" + v.version, BuildPart(opts, v), Md5Part(opts, v));
  }

  lemma NoBracket(a: string, b: string, c: string, short: bool)
    requires '[' !in a && '[' !in b && '[' !in c
    ensures '[' !in a + "=" + b + (if short then "" else "=" + c)
  {
  }
}
