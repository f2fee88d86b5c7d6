/** What the constructor's pass writes, for every list of URLs. */
module ConstructorTheorems {
  import opened Wrappers
  import opened Constructor

  // ---------- one record for each URL ----------

  /** The records are those of the URLs, in order, up to the first failure; that URL has none. */
  lemma {:induction false} OneRecordEach(world: World, urls: seq<string>)
    ensures var out := Rereading(world, urls);
            && |out.written| <= |urls|
            && (forall i :: 0 <= i < |out.written| ==> Process(world, urls[i]) == Ok(out.written[i]))
            && (out.failure.None? ==> |out.written| == |urls|)
            && (out.failure.Some? ==>
                  |out.written| < |urls| && Process(world, urls[|out.written|]) == Err(out.failure.value))
  {
    if urls != [] {
      RereadNext(world, urls);
      OneRecordEach(world, urls[1..]);
      var out, rest := Rereading(world, urls), Rereading(world, urls[1..]);
      if Process(world, urls[0]).Ok? {
        assert out.written == [Process(world, urls[0]).value] + rest.written;
        assert forall i :: 0 < i <= |rest.written| ==> out.written[i] == rest.written[i - 1];
      }
    }
  }

  // ---------- where the cached record stands ----------

  /** The table of a cache file in which a package stands. */
  predicate IsTable(table: string, fn: string) {
    || (table == "packages" && EndsWith(fn, ".tar.bz2"))
    || (table == "packages.conda" && EndsWith(fn, ".conda"))
  }

  /** The name of the cache file is made from the URL without the file name. */
  predicate IsCacheFile(world: World, info: PackageInfo, file: string) {
    var n, m := |info.packageUrl|, |info.filename|;
    file == world.cacheName(if n > m then info.packageUrl[..n - m] else "") + ".json"
  }

  /** The cache file holds an object for this package, in the table for its format. */
  predicate IsCached(world: World, info: PackageInfo, file: string, table: string, cached: Fields) {
    && IsCacheFile(world, info, file) && IsTable(table, info.filename)
    && world.cacheExists(file)
    && match world.readCache(file)
       case Some(Object(j)) =>
         table in j && j[table].Object? && info.filename in j[table].fields
         && j[table].fields[info.filename] == Object(cached)
       case _ => false
  }

  /** The cache has nothing to say about this package: the file, its table or the entry is missing, the
      entry is null, or
      the package has neither of the two formats. */
  predicate NotCached(world: World, info: PackageInfo, file: string) {
    && IsCacheFile(world, info, file)
    && (!world.cacheExists(file)
        || (!EndsWith(info.filename, ".tar.bz2") && !EndsWith(info.filename, ".conda")
            && world.readCache(file).Some?)
        || match world.readCache(file)
           case Some(Object(j)) =>
             var table := if EndsWith(info.filename, ".tar.bz2") then "packages" else "packages.conda";
             table !in j || (j[table].Object? && (info.filename in j[table].fields ==>
                                                    j[table].fields[info.filename] == Null))
           case _ => false)
  }

  lemma NotBothFormats(fn: string)
    ensures !(EndsWith(fn, ".tar.bz2") && EndsWith(fn, ".conda"))
  {
    assert EndsWith(fn, ".tar.bz2") ==> fn[|fn| - 8..][7] == '2';
    assert EndsWith(fn, ".conda") ==> fn[|fn| - 6..][5] == 'a';
  }

  /** A file name ends with a suffix if it is some stem with the suffix behind it. */
  lemma SuffixIs(fn: string, suffix: string)
    ensures EndsWith(fn, suffix) <==> exists stem :: fn == stem + suffix
  {
    if EndsWith(fn, suffix) {
      assert fn == fn[..|fn| - |suffix|] + suffix;
    }
  }

  lemma CacheFileIs(world: World, info: PackageInfo, file: string)
    requires IsCacheFile(world, info, file)
    ensures CacheFile(world, info) == file
  {
  }

  lemma CachedIsFound(world: World, info: PackageInfo, file: string, table: string, cached: Fields)
    requires IsCached(world, info, file, table, cached)
    ensures CachedRecord(world, info) == Ok(Object(cached))
  {
    CacheFileIs(world, info, file);
    NotBothFormats(info.filename);
  }

  lemma NotCachedIsNull(world: World, info: PackageInfo, file: string)
    requires NotCached(world, info, file)
    ensures CachedRecord(world, info) == Ok(Null)
  {
    CacheFileIs(world, info, file);
    NotBothFormats(info.filename);
  }

  // ---------- what is written ----------

  /** Keys that are taken from the URL, or completed when they are missing. */
  predicate IsNormalised(key: string) {
    key in {"fn", "url", "channel", "size", "depends", "constrains", "track_features"}
  }

  lemma FinishedElsewhere(info: PackageInfo, source: Option<Value>, size: int, key: string)
    requires !IsNormalised(key)
    ensures Finished(info, source, size, key) == source
  {
  }

  /** What the index says; null counts as empty. */
  predicate IsIndex(world: World, info: PackageInfo, index: Fields) {
    match world.readIndex(info.filename)
    case Some(Object(fields)) => index == fields
    case Some(Null) => index == map[]
    case _ => false
  }

  lemma CachedProcess(world: World, url: string, info: PackageInfo, file: string, table: string, cached: Fields,
                      index: Fields, key: string)
    requires Process(world, url).Ok? && world.fromUrl(url) == Some(info)
    requires IsCached(world, info, file, table, cached) && IsIndex(world, info, index)
    ensures var source := if key in cached then Some(cached[key]) else Get(index, key);
            Get(Process(world, url).value.1, key) == Finished(info, source, world.fileSize(info.filename), key)
  {
    CachedIsFound(world, info, file, table, cached);
    RecordFields(info, Object(cached), Object(index), world.fileSize(info.filename), key);
  }

  /** The value of a key that only the index, the file and the URL can give. */
  function OwnSource(info: PackageInfo, index: Fields, size: int, key: string): Option<Value> {
    if key == "size" then Some(Num(size))
    else if key == "md5" && info.md5 != "" then Some(Text(info.md5))
    else if key == "sha256" && info.sha256 != "" then Some(Text(info.sha256))
    else Get(index, key)
  }

  lemma UncachedProcess(world: World, url: string, info: PackageInfo, file: string, index: Fields, key: string)
    requires Process(world, url).Ok? && world.fromUrl(url) == Some(info)
    requires NotCached(world, info, file) && IsIndex(world, info, index)
    ensures var size := world.fileSize(info.filename);
            Get(Process(world, url).value.1, key) == Finished(info, OwnSource(info, index, size, key), size, key)
  {
    NotCachedIsNull(world, info, file);
    var j := world.readIndex(info.filename).value;
    RecordFields(info, Null, j, world.fileSize(info.filename), key);
  }

  /** For every list of URLs and every package that its cache knows: the record that is written has the
      cached value at every key that the cached record has, and else the value of the index. Seven keys
      are completed or replaced as they are in every record. */
  lemma CachedRecordWins(world: World, urls: seq<string>, i: nat, info: PackageInfo, file: string, table: string,
                         cached: Fields, index: Fields, key: string)
    requires i < |urls| && i < |Rereading(world, urls).written| && world.fromUrl(urls[i]) == Some(info)
    requires IsCached(world, info, file, table, cached) && IsIndex(world, info, index)
    ensures var record := Rereading(world, urls).written[i].1;
            var source := if key in cached then Some(cached[key]) else Get(index, key);
            && (!IsNormalised(key) ==> Get(record, key) == source)
            && Get(record, key) == Finished(info, source, world.fileSize(info.filename), key)
  {
    OneRecordEach(world, urls);
    CachedProcess(world, urls[i], info, file, table, cached, index, key);
    if !IsNormalised(key) {
      FinishedElsewhere(info, if key in cached then Some(cached[key]) else Get(index, key),
                        world.fileSize(info.filename), key);
    }
  }

  /** For every other package: the record comes from the index, with the size of the file and the
      checksums of the URL. */
  lemma UncachedFromIndex(world: World, urls: seq<string>, i: nat, info: PackageInfo, file: string, index: Fields,
                          key: string)
    requires i < |urls| && i < |Rereading(world, urls).written| && world.fromUrl(urls[i]) == Some(info)
    requires NotCached(world, info, file) && IsIndex(world, info, index)
    ensures var record := Rereading(world, urls).written[i].1;
            var size := world.fileSize(info.filename);
            && (!IsNormalised(key) ==> Get(record, key) == OwnSource(info, index, size, key))
            && Get(record, key) == Finished(info, OwnSource(info, index, size, key), size, key)
  {
    OneRecordEach(world, urls);
    UncachedProcess(world, urls[i], info, file, index, key);
    if !IsNormalised(key) {
      var size := world.fileSize(info.filename);
      FinishedElsewhere(info, OwnSource(info, index, size, key), size, key);
    }
  }

  /** Every record stands under its file name; file name, URL and channel in it are those of the URL,
      and what must be there is there. */
  lemma NormalisedKeys(world: World, urls: seq<string>, i: nat, info: PackageInfo)
    requires i < |urls| && i < |Rereading(world, urls).written| && world.fromUrl(urls[i]) == Some(info)
    ensures var (fn, record) := Rereading(world, urls).written[i];
            && fn == info.filename
            && Get(record, "fn") == Some(Text(info.filename))
            && Get(record, "url") == Some(Text(info.packageUrl))
            && Get(record, "channel") == Some(Text(info.channel))
            && "size" in record && "depends" in record && "constrains" in record
            && (record["size"] == Num(0) ==> world.fileSize(info.filename) == 0)
            && ("track_features" in record ==>
                  record["track_features"] != Null && record["track_features"] != Text("")
                  && record["track_features"] != List([]))
  {
    OneRecordEach(world, urls);
    AddressedRecord(world, urls[i], info);
    RecordComplete(world, urls[i]);
  }

  lemma AddressedRecord(world: World, url: string, info: PackageInfo)
    requires Process(world, url).Ok? && world.fromUrl(url) == Some(info)
    ensures var (fn, record) := Process(world, url).value;
            && fn == info.filename
            && Get(record, "fn") == Some(Text(info.filename))
            && Get(record, "url") == Some(Text(info.packageUrl))
            && Get(record, "channel") == Some(Text(info.channel))
  {
    var cached := CachedRecord(world, info).value;
    var index := world.readIndex(info.filename).value;
    var size := world.fileSize(info.filename);
    RecordFields(info, cached, index, size, "fn");
    RecordFields(info, cached, index, size, "url");
    RecordFields(info, cached, index, size, "channel");
  }

  // ---------- failures ----------

  /** The cached record and the index can be merged. */
  ghost predicate CanMerge(world: World, info: PackageInfo, file: string, index: Value) {
    || (index.Object? && exists table, cached :: IsCached(world, info, file, table, cached))
    || ((index.Object? || index.Null?) && NotCached(world, info, file))
  }

  lemma MergedIffCan(world: World, info: PackageInfo, index: Value, size: int)
    ensures CachedRecord(world, info).Ok? && Merge(info, CachedRecord(world, info).value, index, size).Ok?
            <==> CanMerge(world, info, CacheFile(world, info), index)
  {
    var file := CacheFile(world, info);
    NotBothFormats(info.filename);
    if CanMerge(world, info, file, index) {
      if NotCached(world, info, file) {
        NotCachedIsNull(world, info, file);
      } else {
        var table, cached :| IsCached(world, info, file, table, cached);
        CachedIsFound(world, info, file, table, cached);
      }
    } else if CachedRecord(world, info).Ok? && CachedRecord(world, info).value.Object? {
      var table := if EndsWith(info.filename, ".tar.bz2") then "packages" else "packages.conda";
      assert IsCached(world, info, file, table, CachedRecord(world, info).value.fields);
    }
  }

  /** The pass goes through to its end if and only if every URL can be read, and so can its index and,
      if there is one, its cache file, and these can be merged. */
  lemma NoFailureIff(world: World, urls: seq<string>)
    ensures Rereading(world, urls).failure.None? <==>
            forall u <- urls ::
              && world.fromUrl(u).Some?
              && var info := world.fromUrl(u).value;
                 world.readIndex(info.filename).Some?
                 && CanMerge(world, info, CacheFile(world, info), world.readIndex(info.filename).value)
  {
    OneRecordEach(world, urls);
    forall u: string
      ensures Process(world, u).Ok? <==>
              && world.fromUrl(u).Some?
              && var info := world.fromUrl(u).value;
                 world.readIndex(info.filename).Some?
                 && CanMerge(world, info, CacheFile(world, info), world.readIndex(info.filename).value)
    {
      if world.fromUrl(u).Some? && world.readIndex(world.fromUrl(u).value.filename).Some? {
        var info := world.fromUrl(u).value;
        MergedIffCan(world, info, world.readIndex(info.filename).value, world.fileSize(info.filename));
      }
    }
    var out := Rereading(world, urls);
    if out.failure.Some? {
      assert urls[|out.written|] in urls;
    } else {
      assert forall u <- urls :: Process(world, u).Ok?;
    }
  }
}
