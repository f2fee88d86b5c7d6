/** The pass of `micromamba constructor` that writes a repodata record beside every extracted
    package (`micromamba/src/constructor.cpp`). */
module Constructor {
  import opened Wrappers

  /** A JSON value as the library holds it. */
  datatype Value =
    | Null
    | Bool(flag: bool)
    | Num(number: int)
    | Text(text: string)
    | List(items: seq<Value>)
    | Object(fields: map<string, Value>)

  type Fields = map<string, Value>

  /** What a URL of the list says about its package. */
  datatype PackageInfo = PackageInfo(
    filename: string,
    packageUrl: string,
    channel: string,
    md5: string,
    sha256: string)

  /** The files and functions the pass depends on; none of them changes while it runs. A URL may
      be unreadable, and so may a cached repodata file or an `index.json`. */
  datatype World = World(
    fromUrl: string -> Option<PackageInfo>,
    cacheName: string -> string,
    cacheExists: string -> bool,
    readCache: string -> Option<Value>,
    readIndex: string -> Option<Value>,
    fileSize: string -> int)

  datatype Failure = BadUrl | BadCache | BadIndex | WrongType

  predicate EndsWith(s: string, suffix: string) {
    |suffix| <= |s| && s[|s| - |suffix|..] == suffix
  }

  // ---------- looking up the cached record ----------

  /** The channel is the URL without the file name at its end. */
  function ChannelUrl(info: PackageInfo): string {
    if |info.packageUrl| > |info.filename|
    then info.packageUrl[..|info.packageUrl| - |info.filename|] else ""
  }

  function CacheFile(world: World, info: PackageInfo): string {
    world.cacheName(ChannelUrl(info)) + ".json"
  }

  /** `j.at(key)`: a missing key and a value that is no object fail in different ways. */
  datatype Access = Found(value: Value) | OutOfRange | NotAnObject

  function At(j: Value, key: string): Access {
    if !j.Object? then NotAnObject else if key in j.fields then Found(j.fields[key]) else OutOfRange
  }

  function AtAt(j: Value, key: string, fn: string): Access {
    var inner := At(j, key);
    if inner.Found? then At(inner.value, fn) else inner
  }

  /** The entry of a package, or null; only the missing key is forgiven. */
  function FindPackage(j: Value, fn: string): Result<Value, Failure> {
    var access :=
      if EndsWith(fn, ".tar.bz2") then AtAt(j, "packages", fn)
      else if EndsWith(fn, ".conda") then AtAt(j, "packages.conda", fn)
      else OutOfRange;
    match access
    case Found(v) => Ok(v)
    case OutOfRange => Ok(Null)
    case NotAnObject => Err(WrongType)
  }

  /** The cached record of a package, with the cache file read for this package alone. */
  function CachedRecord(world: World, info: PackageInfo): Result<Value, Failure> {
    var file := CacheFile(world, info);
    if !world.cacheExists(file) then Ok(Null)
    else
      match world.readCache(file)
      case None => Err(BadCache)
      case Some(j) => FindPackage(j, info.filename)
  }

  // ---------- the record ----------

  /** The cached record with the keys of the index it lacks, or else the index with what the
      file and the URL say. */
  function Merge(info: PackageInfo, cached: Value, index: Value, size: int): Result<Fields, Failure> {
    match cached
    case Object(fields) => if index.Object? then Ok(index.fields + fields) else Err(WrongType)
    case Null =>
      if !index.Object? && !index.Null? then Err(WrongType)
      else
        var m := if index.Object? then index.fields else map[];
        var m := m["size" := Num(size)];
        var m := if info.md5 != "" then m["md5" := Text(info.md5)] else m;
        Ok(if info.sha256 != "" then m["sha256" := Text(info.sha256)] else m)
    case _ => Err(WrongType)
  }

  predicate EmptyFeatures(v: Value) {
    v == Null || v == Text("") || v == List([])
  }

  /** File name, URL and channel are those of the URL. */
  function Addressed(info: PackageInfo, m: Fields): Fields {
    m["fn" := Text(info.filename)]["url" := Text(info.packageUrl)]["channel" := Text(info.channel)]
  }

  function Sized(m: Fields, size: int): Fields {
    if "size" !in m || m["size"] == Num(0) then m["size" := Num(size)] else m
  }

  function Defaulted(m: Fields, key: string): Fields {
    if key !in m then m[key := List([])] else m
  }

  function Trimmed(m: Fields): Fields {
    if "track_features" in m && EmptyFeatures(m["track_features"]) then m - {"track_features"} else m
  }

  function Normalise(info: PackageInfo, m: Fields, size: int): Fields {
    Trimmed(Defaulted(Defaulted(Sized(Addressed(info, m), size), "depends"), "constrains"))
  }

  /** One URL on its own. */
  function Process(world: World, url: string): Result<(string, Fields), Failure> {
    match world.fromUrl(url)
    case None => Err(BadUrl)
    case Some(info) =>
      var cached :- CachedRecord(world, info);
      match world.readIndex(info.filename)
      case None => Err(BadIndex)
      case Some(index) =>
        var m :- Merge(info, cached, index, world.fileSize(info.filename));
        Ok((info.filename, Normalise(info, m, world.fileSize(info.filename))))
  }

  /** The records written for a list of URLs, and the failure that ends the pass early, if any. */
  datatype Outcome = Outcome(written: seq<(string, Fields)>, failure: Option<Failure>)

  function Then(record: (string, Fields), rest: Outcome): Outcome {
    rest.(written := [record] + rest.written)
  }

  /** A pass that reads every cache file again for every URL. */
  function Rereading(world: World, urls: seq<string>): Outcome {
    if urls == [] then Outcome([], None)
    else
      match Process(world, urls[0])
      case Err(e) => Outcome([], Some(e))
      case Ok(record) =>
        Then(record, Rereading(world, urls[1..]))
  }

  // ---------- the pass itself ----------

  /** Every remembered file is an existing one, as it would be read again. */
  ghost predicate Remembers(world: World, repodatas: map<string, Value>) {
    forall file <- repodatas :: world.cacheExists(file) && world.readCache(file) == Some(repodatas[file])
  }

  /** Look up a package, reading a cache file only the first time it is needed. */
  method Lookup(world: World, info: PackageInfo, repodatas: map<string, Value>)
      returns (record: Result<Value, Failure>, repodatas': map<string, Value>)
    requires Remembers(world, repodatas)
    ensures record == CachedRecord(world, info) && Remembers(world, repodatas')
    ensures forall file <- repodatas :: file in repodatas' && repodatas'[file] == repodatas[file]
  {
    repodatas' := repodatas;
    var file := CacheFile(world, info);
    if !world.cacheExists(file) {
      return Ok(Null), repodatas';
    }
    if file !in repodatas' {
      var j := world.readCache(file);
      if j.None? {
        return Err(BadCache), repodatas';
      }
      repodatas' := repodatas'[file := j.value];
    }
    record := FindPackage(repodatas'[file], info.filename);
  }

  /** Merge what is cached, or else what file and URL say, with the index. */
  method MergeRecord(info: PackageInfo, cached: Value, index: Value, size: int) returns (r: Result<Fields, Failure>)
    ensures r == Merge(info, cached, index, size)
  {
    var record: Fields;
    if cached != Null {
      if !cached.Object? || !index.Object? {
        return Err(WrongType);
      }
      record := cached.fields;
      record := index.fields + record;
    } else {
      if !index.Object? && !index.Null? {
        return Err(WrongType);
      }
      record := if index.Object? then index.fields else map[];
      record := record["size" := Num(size)];
      if info.md5 != "" {
        record := record["md5" := Text(info.md5)];
      }
      if info.sha256 != "" {
        record := record["sha256" := Text(info.sha256)];
      }
    }
    r := Ok(record);
  }

  /** Build the record of one package, step by step. */
  method BuildRecord(info: PackageInfo, cached: Value, index: Value, size: int)
      returns (r: Result<Fields, Failure>)
    ensures match Merge(info, cached, index, size)
            case Err(e) => r == Err(e)
            case Ok(m) => r == Ok(Normalise(info, m, size))
  {
    r := MergeRecord(info, cached, index, size);
    if r.Err? {
      return;
    }
    var record := r.value;
    record := record["fn" := Text(info.filename)];
    record := record["url" := Text(info.packageUrl)];
    record := record["channel" := Text(info.channel)];
    if "size" !in record || record["size"] == Num(0) {
      record := record["size" := Num(size)];
    }
    if "depends" !in record {
      record := record["depends" := List([])];
    }
    if "constrains" !in record {
      record := record["constrains" := List([])];
    }
    if "track_features" in record {
      if EmptyFeatures(record["track_features"]) {
        record := record - {"track_features"};
      }
    }
    r := Ok(record);
  }

  /** The pass with its table of files already read: it writes what the rereading pass writes. */
  method Construct(world: World, urls: seq<string>) returns (outcome: Outcome)
    ensures outcome == Rereading(world, urls)
  {
    var repodatas: map<string, Value> := map[];
    var written := [];
    for i := 0 to |urls|
      invariant Remembers(world, repodatas)
      invariant var rest := Rereading(world, urls[i..]);
                Rereading(world, urls) == rest.(written := written + rest.written)
    {
      assert urls[i..][1..] == urls[i + 1..];
      var info := world.fromUrl(urls[i]);
      if info.None? {
        return Outcome(written, Some(BadUrl));
      }
      var cached;
      cached, repodatas := Lookup(world, info.value, repodatas);
      if cached.Err? {
        return Outcome(written, Some(cached.error));
      }
      var index := world.readIndex(info.value.filename);
      if index.None? {
        return Outcome(written, Some(BadIndex));
      }
      var record := BuildRecord(info.value, cached.value, index.value, world.fileSize(info.value.filename));
      if record.Err? {
        return Outcome(written, Some(record.error));
      }
      written := written + [(info.value.filename, record.value)];
    }
    outcome := Outcome(written, None);
  }

  // ---------- what the records hold ----------

  function Get(m: Fields, key: string): Option<Value> {
    if key in m then Some(m[key]) else None
  }

  /** Where a key comes from before the record is normalised: the cached record if it has the
      key, else the index; without a cached record, the file for the size and the URL for the
      checksums it names. */
  function SourceOf(info: PackageInfo, cached: Value, index: Value, size: int, key: string): Option<Value> {
    var indexed := if index.Object? then Get(index.fields, key) else None;
    if cached.Object? then
      (if key in cached.fields then Some(cached.fields[key]) else indexed)
    else if key == "size" then Some(Num(size))
    else if key == "md5" && info.md5 != "" then Some(Text(info.md5))
    else if key == "sha256" && info.sha256 != "" then Some(Text(info.sha256))
    else indexed
  }

  /** The value a finished record has at a key, given the value it had before. */
  function Finished(info: PackageInfo, source: Option<Value>, size: int, key: string): Option<Value> {
    match key
    case "fn" => Some(Text(info.filename))
    case "url" => Some(Text(info.packageUrl))
    case "channel" => Some(Text(info.channel))
    case "size" => if source == None || source == Some(Num(0)) then Some(Num(size)) else source
    case "depends" => if source == None then Some(List([])) else source
    case "constrains" => if source == None then Some(List([])) else source
    case "track_features" => if source.Some? && EmptyFeatures(source.value) then None else source
    case _ => source
  }

  lemma MergeSources(info: PackageInfo, cached: Value, index: Value, size: int, key: string)
    requires Merge(info, cached, index, size).Ok?
    ensures Get(Merge(info, cached, index, size).value, key) == SourceOf(info, cached, index, size, key)
  {
  }

  lemma AddressedAt(info: PackageInfo, m: Fields, key: string)
    ensures Get(Addressed(info, m), key)
         == if key == "fn" then Some(Text(info.filename))
            else if key == "url" then Some(Text(info.packageUrl))
            else if key == "channel" then Some(Text(info.channel))
            else Get(m, key)
  {
  }

  lemma SizedAt(m: Fields, size: int, key: string)
    ensures Get(Sized(m, size), key)
         == if key == "size" && (Get(m, key) == None || Get(m, key) == Some(Num(0))) then Some(Num(size))
            else Get(m, key)
  {
  }

  lemma DefaultedAt(m: Fields, k: string, key: string)
    ensures Get(Defaulted(m, k), key) == if key == k && Get(m, key) == None then Some(List([])) else Get(m, key)
  {
  }

  lemma TrimmedAt(m: Fields, key: string)
    ensures Get(Trimmed(m), key)
         == if key == "track_features" && Get(m, key).Some? && EmptyFeatures(Get(m, key).value) then None
            else Get(m, key)
  {
  }

  /** A record that was normalised in five steps, seen at one key. */
  lemma NormaliseAt(info: PackageInfo, m: Fields, size: int, key: string)
    ensures Get(Normalise(info, m, size), key) == Finished(info, Get(m, key), size, key)
  {
    var a := Addressed(info, m);
    var b := Sized(a, size);
    var c := Defaulted(b, "depends");
    var d := Defaulted(c, "constrains");
    AddressedAt(info, m, key);
    SizedAt(a, size, key);
    DefaultedAt(b, "depends", key);
    DefaultedAt(c, "constrains", key);
    TrimmedAt(d, key);
  }

  /** Every key of every finished record, with the priority between its possible sources. */
  lemma RecordFields(info: PackageInfo, cached: Value, index: Value, size: int, key: string)
    requires Merge(info, cached, index, size).Ok?
    ensures var record := Normalise(info, Merge(info, cached, index, size).value, size);
            Get(record, key) == Finished(info, SourceOf(info, cached, index, size, key), size, key)
  {
    MergeSources(info, cached, index, size, key);
    NormaliseAt(info, Merge(info, cached, index, size).value, size, key);
  }

  /** Whatever the inputs, a record that is written has its size and both dependency lists, and
      no empty track features; a size of zero means an empty file. */
  lemma RecordComplete(world: World, url: string)
    requires Process(world, url).Ok?
    ensures var (fn, record) := Process(world, url).value;
            && "size" in record && "depends" in record && "constrains" in record
            && ("track_features" in record ==> !EmptyFeatures(record["track_features"]))
            && (record["size"] == Num(0) ==> world.fileSize(fn) == 0)
  {
  }

  lemma SameGets(m: Fields, k: Fields)
    requires forall key :: Get(m, key) == Get(k, key)
    ensures m == k
  {
    assert forall key :: key in m <==> Get(m, key).Some?;
    assert forall key :: key in k <==> Get(k, key).Some?;
  }

  lemma FinishedTwice(info: PackageInfo, source: Option<Value>, size: int, key: string)
    ensures Finished(info, Finished(info, source, size, key), size, key) == Finished(info, source, size, key)
  {
  }

  /** A record that is normalised already stays as it is. */
  lemma NormaliseTwice(info: PackageInfo, m: Fields, size: int)
    ensures Normalise(info, Normalise(info, m, size), size) == Normalise(info, m, size)
  {
    var once := Normalise(info, m, size);
    var twice := Normalise(info, once, size);
    forall key
      ensures Get(twice, key) == Get(once, key)
    {
      NormaliseAt(info, once, size, key);
      NormaliseAt(info, m, size, key);
      FinishedTwice(info, Get(m, key), size, key);
    }
    SameGets(twice, once);
  }

  // ---------- what of the caches matters ----------

  /** Two cache files hold the same table for packages of a file's own format. */
  predicate SameTable(j: Option<Value>, k: Option<Value>, fn: string) {
    match (j, k)
    case (Some(Object(f)), Some(Object(g))) =>
      && (EndsWith(fn, ".conda") ==> Get(f, "packages.conda") == Get(g, "packages.conda"))
      && (EndsWith(fn, ".tar.bz2") ==> Get(f, "packages") == Get(g, "packages"))
    case _ => j == k
  }

  lemma SameFound(j: Value, k: Value, fn: string)
    requires SameTable(Some(j), Some(k), fn)
    ensures FindPackage(j, fn) == FindPackage(k, fn)
  {
  }

  /** Of the cached repodata only the table for a package's own format matters, in the file for its
      own channel: with these the same, the whole pass writes the same. */
  lemma {:induction false} OwnTablesDecide(world: World, readCache: string -> Option<Value>, urls: seq<string>)
    requires forall u <- urls :: world.fromUrl(u).Some? ==>
                                   var file := CacheFile(world, world.fromUrl(u).value);
                                   SameTable(world.readCache(file), readCache(file), world.fromUrl(u).value.filename)
    ensures Rereading(world.(readCache := readCache), urls) == Rereading(world, urls)
  {
    if urls != [] {
      var other := world.(readCache := readCache);
      assert urls[0] in urls && forall u <- urls[1..] :: u in urls;
      OwnTablesDecide(world, readCache, urls[1..]);
      RereadNext(world, urls);
      RereadNext(other, urls);
      if world.fromUrl(urls[0]).Some? {
        var info := world.fromUrl(urls[0]).value;
        var j, k := world.readCache(CacheFile(world, info)), readCache(CacheFile(world, info));
        if j.Some? && k.Some? {
          SameFound(j.value, k.value, info.filename);
        }
        assert CachedRecord(other, info) == CachedRecord(world, info);
      }
    }
  }

  // ---------- the order of the URLs ----------

  /** How the outcome for a list relates to the outcome for a longer one. */
  predicate Continues(now: Outcome, later: Outcome, more: Outcome) {
    && (now.failure.Some? ==> later == now)
    && (now.failure.None? ==> later == more.(written := now.written + more.written))
  }

  lemma ThenContinues(record: (string, Fields), now: Outcome, later: Outcome, more: Outcome)
    requires Continues(now, later, more)
    ensures Continues(Then(record, now), Then(record, later), more)
  {
  }

  lemma RereadNext(world: World, urls: seq<string>)
    requires urls != []
    ensures Rereading(world, urls)
         == match Process(world, urls[0])
            case Err(e) => Outcome([], Some(e))
            case Ok(record) => Then(record, Rereading(world, urls[1..]))
  {
  }

  /** What has been written is never taken back: a longer list begins with the records of a
      shorter one, and the first failure ends both. */
  lemma {:induction false} LongerList(world: World, urls: seq<string>, more: seq<string>)
    ensures Continues(Rereading(world, urls), Rereading(world, urls + more), Rereading(world, more))
  {
    if urls == [] {
      assert urls + more == more;
      assert [] + Rereading(world, more).written == Rereading(world, more).written;
    } else {
      assert (urls + more)[1..] == urls[1..] + more && (urls + more)[0] == urls[0];
      LongerList(world, urls[1..], more);
      RereadNext(world, urls);
      RereadNext(world, urls + more);
      var first := Process(world, urls[0]);
      if first.Ok? {
        ThenContinues(first.value, Rereading(world, urls[1..]), Rereading(world, urls[1..] + more),
                      Rereading(world, more));
      }
    }
  }
}
