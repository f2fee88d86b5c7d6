/** The two text formats of `micromamba env export` (`micromamba/src/env.cpp`). */
module EnvExport {
  import opened Wrappers
  import opened Sequences
  import opened Json

  // ---------- what is exported ----------

  datatype Record = Record(
    name: string,
    version: string,
    buildString: string,
    md5: string,
    channel: string,
    platform: string)

  datatype PipRecord = PipRecord(name: string, version: string)

  /** The flags of the command; the checksum is printed just when `noMd5` is -1. */
  datatype Options = Options(fromHistory: bool, channelSubdir: bool, noBuild: bool, noMd5: int)

  /** An environment: its records by key, the requested specs by key, and the display names of
      the channels that a record's channel stands for. Name and prefix only matter for YAML. */
  datatype Environment = Environment(
    name: string,
    prefix: string,
    records: seq<(string, Record)>,
    pipRecords: seq<PipRecord>,
    requested: map<string, string>,
    displayNames: string -> seq<string>)

  predicate Skipped(env: Environment, opts: Options, key: string) {
    opts.fromHistory && key !in env.requested
  }

  /** The channel and platform in front of the name, if they are asked for. A channel that
      stands for several is named as it is in the record. */
  function SubdirPart(env: Environment, opts: Options, v: Record): string {
    if opts.channelSubdir then
      var chans := env.displayNames(v.channel);
      (if |chans| == 1 then chans[0] else v.channel) + "/" + v.platform + "::"
    else ""
  }

  function BuildPart(opts: Options, v: Record): string {
    if !opts.noBuild then "=" + v.buildString else ""
  }

  function Md5Part(opts: Options, v: Record): string {
    if opts.noMd5 == -1 then "[md5=" + v.md5 + "]" else ""
  }

  /** How one record is named among the dependencies. */
  function Dependency(env: Environment, opts: Options, key: string, v: Record): string
    requires !Skipped(env, opts, key)
  {
    if opts.fromHistory then env.requested[key]
    else SubdirPart(env, opts, v) + (v.name + "=" + v.version) + BuildPart(opts, v) + Md5Part(opts, v)
  }

  lemma Pieces(open: string, a: string, b: string, c: string, d: string, close: string)
    ensures open + a + b + c + d + close == open + (a + b + c + d) + close
  {
  }

  function Dependencies(env: Environment, opts: Options, records: seq<(string, Record)>): seq<string> {
    if records == [] then []
    else
      var (k, v) := records[0];
      (if Skipped(env, opts, k) then [] else [Dependency(env, opts, k, v)])
      + Dependencies(env, opts, records[1..])
  }

  function Channels(env: Environment, opts: Options, records: seq<(string, Record)>): set<string> {
    if records == [] then {}
    else
      var (k, v) := records[0];
      (if Skipped(env, opts, k) then {} else set c | c in env.displayNames(v.channel))
      + Channels(env, opts, records[1..])
  }

  function PipStrings(pips: seq<PipRecord>): seq<string> {
    if pips == [] then [] else [pips[0].name + "==" + pips[0].version] + PipStrings(pips[1..])
  }

  lemma {:induction false} RecordsAppend(env: Environment, opts: Options, records: seq<(string, Record)>,
                                         r: (string, Record))
    ensures Dependencies(env, opts, records + [r])
         == Dependencies(env, opts, records)
            + (if Skipped(env, opts, r.0) then [] else [Dependency(env, opts, r.0, r.1)])
    ensures Channels(env, opts, records + [r])
         == Channels(env, opts, records)
            + (if Skipped(env, opts, r.0) then {} else set c | c in env.displayNames(r.1.channel))
  {
    if records != [] {
      assert (records + [r])[1..] == records[1..] + [r];
      RecordsAppend(env, opts, records[1..], r);
    }
  }

  lemma {:induction false} PipsAppend(pips: seq<PipRecord>, p: PipRecord)
    ensures PipStrings(pips + [p]) == PipStrings(pips) + [p.name + "==" + p.version]
  {
    if pips != [] {
      assert (pips + [p])[1..] == pips[1..] + [p];
      PipsAppend(pips[1..], p);
    }
  }

  // ---------- JSON ----------

  const DEPENDENCY_INDENT := "    "
  const PIP_INDENT := "      "

  function Separator(printed: bool): string {
    if printed then ",\n" else ""
  }

  function Quoted(x: string): string {
    "\"" + x + "\""
  }

  /** Quoted strings, each on its line, with a comma before all but the first. */
  function QuotedList(xs: seq<string>, indent: string, printed: bool): string {
    if xs == [] then ""
    else Separator(printed) + indent + Quoted(xs[0]) + QuotedList(xs[1..], indent, true)
  }

  lemma {:induction false} QuotedAppend(xs: seq<string>, x: string, indent: string, printed: bool)
    ensures QuotedList(xs + [x], indent, printed)
         == QuotedList(xs, indent, printed) + (Separator(printed || xs != []) + indent + Quoted(x))
  {
    if xs == [] {
      assert [] + [x] == [x];
    } else {
      assert (xs + [x])[1..] == xs[1..] + [x];
      QuotedAppend(xs[1..], x, indent, true);
    }
  }

  const PIP_OPEN := "     { "
  const PIP_KEY := "\"pip\": [\n"
  const PIP_CLOSE := "\n    ]\n    }"

  function PipObject(ps: seq<string>): string {
    PIP_OPEN + PIP_KEY + QuotedList(ps, PIP_INDENT, false) + PIP_CLOSE
  }

  /** The text between the brackets: the dependencies, then the pip object if there is one. */
  function JsonBody(ds: seq<string>, ps: seq<string>): string {
    QuotedList(ds, DEPENDENCY_INDENT, false)
    + (if ps == [] then "" else Separator(ds != []) + PipObject(ps))
    + (if ds != [] || ps != [] then "\n" else "")
  }

  function JsonText(ds: seq<string>, ps: seq<string>): string {
    "[ " + JsonBody(ds, ps) + " ]"
  }

  /** Write the dependency of one record piece by piece. */
  method WriteJsonDependency(env: Environment, opts: Options, key: string, v: Record) returns (text: string)
    requires !Skipped(env, opts, key)
    ensures text == Quoted(Dependency(env, opts, key, v))
  {
    text := "\"";
    if opts.fromHistory {
      text := text + env.requested[key] + "\"";
    } else {
      var subdir := "";
      if opts.channelSubdir {
        var chans := env.displayNames(v.channel);
        subdir := (if |chans| == 1 then chans[0] else v.channel) + "/" + v.platform + "::";
      }
      var build := "";
      if !opts.noBuild {
        build := "=" + v.buildString;
      }
      var md5 := "";
      if opts.noMd5 == -1 {
        md5 := "[md5=" + v.md5 + "]";
      }
      Pieces("\"", subdir, v.name + "=" + v.version, build, md5, "\"");
      text := text + subdir + (v.name + "=" + v.version) + build + md5 + "\"";
    }
  }

  method InsertChannels(channels: set<string>, chans: seq<string>) returns (more: set<string>)
    ensures more == channels + set c | c in chans
  {
    more := channels;
    for i := 0 to |chans|
      invariant more == channels + set c | c in chans[..i]
    {
      assert chans[..i + 1] == chans[..i] + [chans[i]];
      more := more + {chans[i]};
    }
    assert chans[..|chans|] == chans;
  }

  /** The records up to and including the next one. */
  lemma NextRecord(env: Environment, opts: Options, i: nat)
    requires i < |env.records|
    ensures var (k, v) := env.records[i];
            var ds, cs := Dependencies(env, opts, env.records[..i]), Channels(env, opts, env.records[..i]);
            var ds', cs' := Dependencies(env, opts, env.records[..i + 1]), Channels(env, opts, env.records[..i + 1]);
            if Skipped(env, opts, k) then ds' == ds && cs' == cs
            else ds' == ds + [Dependency(env, opts, k, v)] && cs' == cs + set c | c in env.displayNames(v.channel)
  {
    assert env.records[..i + 1] == env.records[..i] + [env.records[i]];
    RecordsAppend(env, opts, env.records[..i], env.records[i]);
  }

  /** The first loop of the JSON branch. */
  method JsonDependencies(env: Environment, opts: Options)
      returns (text: string, channels: set<string>, printed: bool)
    ensures var ds := Dependencies(env, opts, env.records);
            text == QuotedList(ds, DEPENDENCY_INDENT, false) && (printed <==> ds != [])
    ensures channels == Channels(env, opts, env.records)
  {
    text, channels, printed := "", {}, false;
    ghost var ds: seq<string> := [];
    for i := 0 to |env.records|
      invariant ds == Dependencies(env, opts, env.records[..i])
      invariant text == QuotedList(ds, DEPENDENCY_INDENT, false) && (printed <==> ds != [])
      invariant channels == Channels(env, opts, env.records[..i])
    {
      var (k, v) := env.records[i];
      NextRecord(env, opts, i);
      if opts.fromHistory && k !in env.requested {
        continue;
      }
      var quoted := WriteJsonDependency(env, opts, k, v);
      QuotedAppend(ds, Dependency(env, opts, k, v), DEPENDENCY_INDENT, false);
      text := text + ((if printed then ",\n" else "") + "    " + quoted);
      printed := true;
      channels := InsertChannels(channels, env.displayNames(v.channel));
      ds := ds + [Dependency(env, opts, k, v)];
    }
    assert env.records[..|env.records|] == env.records;
  }

  /** The second loop, which uses the separator flag anew. */
  method JsonPips(pips: seq<PipRecord>) returns (text: string, printed: bool)
    ensures text == QuotedList(PipStrings(pips), PIP_INDENT, false) && (printed <==> pips != [])
  {
    text, printed := "", false;
    for i := 0 to |pips|
      invariant text == QuotedList(PipStrings(pips[..i]), PIP_INDENT, false)
      invariant (printed <==> i > 0) && (PipStrings(pips[..i]) != [] <==> i > 0)
    {
      var v := pips[i];
      assert pips[..i + 1] == pips[..i] + [v];
      PipsAppend(pips[..i], v);
      QuotedAppend(PipStrings(pips[..i]), v.name + "==" + v.version, PIP_INDENT, false);
      text := text + ((if printed then ",\n" else "") + "      " + ("\"" + (v.name + "==" + v.version) + "\""));
      printed := true;
    }
    assert pips[..|pips|] == pips;
  }

  /** What the JSON branch hands over: the channels, and the parsed dependencies. */
  datatype JsonExport = JsonExport(channels: set<string>, dependencies: Json)

  function JsonResult(env: Environment, opts: Options): Option<JsonExport> {
    match Parse(JsonText(Dependencies(env, opts, env.records), PipStrings(env.pipRecords)))
    case None => None
    case Some(parsed) => Some(JsonExport(Channels(env, opts, env.records), parsed))
  }

  method ExportJson(env: Environment, opts: Options) returns (result: Option<JsonExport>)
    ensures result == JsonResult(env, opts)
  {
    ghost var ds, ps := Dependencies(env, opts, env.records), PipStrings(env.pipRecords);
    var text, channels, printed := JsonDependencies(env, opts);
    var body := text;
    if env.pipRecords != [] {
      var pips, pipPrinted := JsonPips(env.pipRecords);
      body := body + ((if printed then ",\n" else "") + (PIP_OPEN + PIP_KEY + pips + PIP_CLOSE));
      printed := pipPrinted;
    } else {
      assert body + "" == body;
    }
    body := body + (if printed then "\n" else "");
    assert ps == [] <==> env.pipRecords == [];
    assert body == JsonBody(ds, ps);
    var parsed := Parse("[ " + body + " ]");
    if parsed.None? {
      return None;
    }
    return Some(JsonExport(channels, parsed.value));
  }

  // ---------- YAML ----------

  const DASH := "  - "
  const NESTED_DASH := "    - "
  const PIP_LINE := "  - pip:\n"

  /** One line per string. */
  function Listed(xs: seq<string>, dash: string): string {
    if xs == [] then "" else dash + xs[0] + "\n" + Listed(xs[1..], dash)
  }

  lemma {:induction false} ListedAppend(xs: seq<string>, x: string, dash: string)
    ensures Listed(xs + [x], dash) == Listed(xs, dash) + (dash + x + "\n")
  {
    if xs == [] {
      assert [] + [x] == [x];
    } else {
      assert (xs + [x])[1..] == xs[1..] + [x];
      ListedAppend(xs[1..], x, dash);
    }
  }

  function YamlBody(ds: seq<string>, ps: seq<string>): string {
    Listed(ds, DASH) + (if ps == [] then "" else PIP_LINE + Listed(ps, NESTED_DASH))
  }

  function YamlText(name: string, cs: seq<string>, ds: seq<string>, ps: seq<string>, prefix: string): string {
    "name: " + name + "\n" + "channels:\n" + Listed(cs, DASH)
    + "dependencies:\n" + YamlBody(ds, ps) + "\n" + "prefix: " + prefix + "\n"
  }

  /** The same pieces, written a second time in the source. */
  method WriteYamlDependency(env: Environment, opts: Options, key: string, v: Record) returns (text: string)
    requires !Skipped(env, opts, key)
    ensures text == DASH + Dependency(env, opts, key, v) + "\n"
  {
    text := "  - ";
    if opts.fromHistory {
      text := text + env.requested[key] + "\n";
    } else {
      var subdir := "";
      if opts.channelSubdir {
        var chans := env.displayNames(v.channel);
        subdir := (if |chans| == 1 then chans[0] else v.channel) + "/" + v.platform + "::";
      }
      var build := "";
      if !opts.noBuild {
        build := "=" + v.buildString;
      }
      var md5 := "";
      if opts.noMd5 == -1 {
        md5 := "[md5=" + v.md5 + "]";
      }
      Pieces("  - ", subdir, v.name + "=" + v.version, build, md5, "\n");
      text := text + subdir + (v.name + "=" + v.version) + build + md5 + "\n";
    }
  }

  method YamlDependencies(env: Environment, opts: Options) returns (text: string, channels: set<string>)
    ensures text == Listed(Dependencies(env, opts, env.records), DASH)
    ensures channels == Channels(env, opts, env.records)
  {
    text, channels := "", {};
    ghost var ds: seq<string> := [];
    for i := 0 to |env.records|
      invariant ds == Dependencies(env, opts, env.records[..i])
      invariant text == Listed(ds, DASH)
      invariant channels == Channels(env, opts, env.records[..i])
    {
      var (k, v) := env.records[i];
      NextRecord(env, opts, i);
      if opts.fromHistory && k !in env.requested {
        continue;
      }
      var line := WriteYamlDependency(env, opts, k, v);
      ListedAppend(ds, Dependency(env, opts, k, v), DASH);
      text := text + line;
      channels := InsertChannels(channels, env.displayNames(v.channel));
      ds := ds + [Dependency(env, opts, k, v)];
    }
    assert env.records[..|env.records|] == env.records;
  }

  method YamlPips(pips: seq<PipRecord>) returns (text: string)
    ensures text == Listed(PipStrings(pips), NESTED_DASH)
  {
    text := "";
    for i := 0 to |pips|
      invariant text == Listed(PipStrings(pips[..i]), NESTED_DASH)
    {
      var v := pips[i];
      assert pips[..i + 1] == pips[..i] + [v];
      PipsAppend(pips[..i], v);
      ListedAppend(PipStrings(pips[..i]), v.name + "==" + v.version, NESTED_DASH);
      text := text + ("    - " + (v.name + "==" + v.version) + "\n");
    }
    assert pips[..|pips|] == pips;
  }

  /** List a set of channels, each once. */
  method ListChannels(channels: set<string>) returns (text: string, cs: seq<string>)
    ensures text == Listed(cs, DASH)
    ensures (set c | c in cs) == channels && |cs| == |channels|
  {
    text, cs := "", [];
    var rest := channels;
    while rest != {}
      invariant rest <= channels && (set c | c in cs) == channels - rest && |cs| == |channels| - |rest|
      invariant text == Listed(cs, DASH)
      decreases rest
    {
      var c :| c in rest;
      assert (set x | x in cs + [c]) == (set x | x in cs) + {c};
      ListedAppend(cs, c, DASH);
      text := text + ("  - " + c + "\n");
      rest, cs := rest - {c}, cs + [c];
    }
  }

  method ExportYaml(env: Environment, opts: Options) returns (text: string, cs: seq<string>)
    ensures text == YamlText(env.name, cs, Dependencies(env, opts, env.records),
                             PipStrings(env.pipRecords), env.prefix)
    ensures (set c | c in cs) == Channels(env, opts, env.records) && |cs| == |Channels(env, opts, env.records)|
  {
    text := "name: " + env.name + "\n" + "channels:\n";
    var dependencies, channels := YamlDependencies(env, opts);
    if env.pipRecords != [] {
      var pips := YamlPips(env.pipRecords);
      dependencies := dependencies + ("  - pip:\n" + pips);
    } else {
      assert dependencies + "" == dependencies;
    }
    assert dependencies == YamlBody(Dependencies(env, opts, env.records), PipStrings(env.pipRecords));
    var list;
    list, cs := ListChannels(channels);
    text := text + list + "dependencies:\n" + dependencies + "\n" + "prefix: " + env.prefix + "\n";
  }
}
