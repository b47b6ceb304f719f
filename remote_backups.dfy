/**
 * lib/remote-backups.js: the retention lifecycle in an S3 bucket. Backup objects are found by
 * listing the bucket and decoding the keys under each generation's prefix; promotion copies the
 * youngest daily object under the weekly or monthly prefix; expiry deletes the objects beyond
 * each generation's quota in one batch; and the youngest local backup file is uploaded under
 * the daily prefix.
 */
module RemoteBackups {
  import opened Wrappers
  import opened Dates
  import opened Infos
  import opened Seqs
  import opened Utils
  import opened S3
  import opened FileUtils
  import opened LocalBackups

  /** The object store: one bucket, its objects (key to content), and the delete batches it received. */
  class Bucket {
    const name: string
    var objects: map<string, seq<bv8>>
    var deleteBatches: seq<seq<string>>

    constructor (name0: string, objects0: map<string, seq<bv8>>)
      ensures name == name0 && objects == objects0 && deleteBatches == []
    {
      name := name0;
      objects := objects0;
      deleteBatches := [];
    }

    /** The key a `CopySource` of the form `<bucket>/<key>` names in this bucket. */
    function SourceKey(copySource: string): (r: Option<string>)
      reads this
      ensures r.Some? ==> copySource == name + "/" + r.value
      ensures forall k :: copySource == name + "/" + k ==> r == Some(k)
    {
      var head := name + "/";
      if |head| <= |copySource| && copySource[..|head|] == head then
        assert copySource == head + copySource[|head|..];
        Some(copySource[|head|..])
      else None
    }

    /** `copyObject({Key, CopySource})`: the object under `Key` gets the content of the source object. */
    method CopyObject(key: string, copySource: string) returns (r: Result<(), S3Error>)
      modifies this
      ensures r.Ok? <==> SourceKey(copySource).Some? && SourceKey(copySource).value in old(objects)
      ensures r.Ok? ==> objects == old(objects)[key := old(objects)[SourceKey(copySource).value]]
      ensures r.Err? ==> objects == old(objects)
      ensures deleteBatches == old(deleteBatches)
    {
      var src := SourceKey(copySource);
      if src.None? || src.value !in objects {
        return Err(S3Error("NoSuchKey", "The specified key does not exist."));
      }
      objects := objects[key := objects[src.value]];
      r := Ok(());
    }

    /** `deleteObjects`: one batch request naming `keys`; keys without an object are ignored. */
    method DeleteObjects(keys: seq<string>)
      modifies this
      ensures objects == old(objects) - set k | k in keys
      ensures deleteBatches == old(deleteBatches) + [keys]
    {
      objects := objects - set k | k in keys;
      deleteBatches := deleteBatches + [keys];
    }

    /** `upload({Bucket, Key, Body})`: the object under `key` holds `body`. */
    method Upload(key: string, body: seq<bv8>)
      modifies this
      ensures objects == old(objects)[key := body] && deleteBatches == old(deleteBatches)
    {
      objects := objects[key := body];
    }
  }

  // ---------------------------------------------------------------------------------------
  // Listing: getRemoteInfosSingle, getRemoteInfos

  /** The `Key` of every listed object, in listing order. */
  function Keys(objs: seq<S3Object>): (r: seq<string>)
    ensures |r| == |objs| && forall i :: 0 <= i < |objs| ==> r[i] == objs[i].key
  {
    if objs == [] then [] else [objs[0].key] + Keys(objs[1..])
  }

  /** The pattern `getRemoteInfosSingle` filters keys with: the generation's prefix, a `/`, and the template. */
  function KeyPattern(frequency: Generation, nameFormat: string, prefix: string): Pattern
  {
    NameFormatToRegex(JoinPrefix([FrequencyPrefixesFromPrefix(prefix).Get(frequency), nameFormat]))
  }

  /** Joining under a generation's key prefix adds exactly one `/`: the prefix ends in the generation's name. */
  lemma JoinUnderGeneration(prefix: string, g: Generation, s: string)
    ensures JoinPrefix([FrequencyPrefixesFromPrefix(prefix).Get(g), s])
      == FrequencyPrefixesFromPrefix(prefix).Get(g) + "/" + DropLeadingSlash(s)
  {
    var fp := FrequencyPrefixesFromPrefix(prefix).Get(g);
    GenerationPathsShape("d", prefix, g);
    JoinPrefixPair(fp, s);
    assert fp[|fp| - 1] != '/' by {
      match g
      case Daily => assert fp[|fp| - 1] == "daily"[4];
      case Weekly => assert fp[|fp| - 1] == "weekly"[5];
      case Monthly => assert fp[|fp| - 1] == "monthly"[6];
    }
    assert DropTrailingSlash(fp) == fp;
  }

  /** The filter's pattern is the one `objectInfoFromKey` decodes with. */
  lemma KeyPatternIsDecodePattern(frequency: Generation, nameFormat: string, prefix: string)
    ensures KeyPattern(frequency, nameFormat, prefix) == NameFormatToRegex(ObjectKeyFromFileName(prefix, frequency, nameFormat))
  {
    JoinUnderGeneration(prefix, frequency, nameFormat);
  }

  /** The records decoded from matching keys, in order; a key whose digits are no calendar date has none. */
  function ObjectInfosFromKeys(frequency: Generation, nameFormat: string, prefix: string, keys: seq<string>): (r: seq<Info>)
    ensures |r| <= |keys|
    ensures forall x :: x in r <==> x.location in keys && ObjectInfoFromKey(frequency, nameFormat, prefix, x.location) == Some(x)
  {
    if keys == [] then []
    else
      var rest := ObjectInfosFromKeys(frequency, nameFormat, prefix, keys[1..]);
      match ObjectInfoFromKey(frequency, nameFormat, prefix, keys[0])
      case None => rest
      case Some(x) => [x] + rest
  }

  /** A listed object that decodes, under the given listing result. */
  predicate Listed(listed: seq<S3Object>, nameFormat: string, prefix: string, x: Info) {
    x.location in Keys(listed) && ObjectInfoFromKey(x.generation, nameFormat, prefix, x.location) == Some(x)
  }

  /**
   * `getRemoteInfosSingle`: lists the bucket under the user prefix (`pages` is how each page
   * request settles) and decodes the keys that match the generation's key pattern.
   */
  function GetRemoteInfosSingle(pages: seq<Outcome<Page>>, bucket: string, frequency: Generation, prefix: string, nameFormat: string)
    : (r: Outcome<seq<Info>>)
    requires Terminates(pages)
    ensures ListAllObjects(pages, ListParams(bucket, prefix, None)).requests[0] == ListParams(bucket, prefix, None)
    ensures r.Rejected? <==> ListAllObjects(pages, ListParams(bucket, prefix, None)).result.Rejected?
    ensures r.Rejected? ==> r.error == ListAllObjects(pages, ListParams(bucket, prefix, None)).result.error
    ensures r.Resolved? ==> forall x :: x in r.value <==>
      x.generation == frequency && Listed(ListAllObjects(pages, ListParams(bucket, prefix, None)).result.value, nameFormat, prefix, x)
  {
    var pattern := KeyPattern(frequency, nameFormat, prefix);
    KeyPatternIsDecodePattern(frequency, nameFormat, prefix);
    match ListAllObjects(pages, ListParams(bucket, prefix, None)).result
    case Rejected(e) => Rejected(e)
    case Resolved(objs) =>
      var keys := Filter(Keys(objs), k => Matches(pattern, k));
      Resolved(ObjectInfosFromKeys(frequency, nameFormat, prefix, keys))
  }

  /**
   * `getRemoteInfos`: the records of all three generations, youngest first; the first listing
   * (daily, weekly, monthly order) that fails fails the whole.
   */
  function GetRemoteInfos(dailyPages: seq<Outcome<Page>>, weeklyPages: seq<Outcome<Page>>, monthlyPages: seq<Outcome<Page>>,
                          bucket: string, nameFormat: string, prefix: string): (r: Outcome<seq<Info>>)
    requires Terminates(dailyPages) && Terminates(weeklyPages) && Terminates(monthlyPages)
    ensures var d := GetRemoteInfosSingle(dailyPages, bucket, Daily, prefix, nameFormat);
      var w := GetRemoteInfosSingle(weeklyPages, bucket, Weekly, prefix, nameFormat);
      var m := GetRemoteInfosSingle(monthlyPages, bucket, Monthly, prefix, nameFormat);
      && (r.Resolved? <==> d.Resolved? && w.Resolved? && m.Resolved?)
      && (r.Rejected? ==> r.error == (if d.Rejected? then d.error else if w.Rejected? then w.error else m.error))
      && (r.Resolved? ==> SortedNewestFirst(r.value) && forall x :: x in r.value <==> x in d.value + w.value + m.value)
  {
    var d := GetRemoteInfosSingle(dailyPages, bucket, Daily, prefix, nameFormat);
    var w := GetRemoteInfosSingle(weeklyPages, bucket, Weekly, prefix, nameFormat);
    var m := GetRemoteInfosSingle(monthlyPages, bucket, Monthly, prefix, nameFormat);
    if d.Rejected? then Rejected(d.error)
    else if w.Rejected? then Rejected(w.error)
    else if m.Rejected? then Rejected(m.error)
    else
      SortKeepsMembers(d.value + w.value + m.value);
      Resolved(SortInfoNewestFirst(d.value + w.value + m.value))
  }

  // ---------------------------------------------------------------------------------------
  // Promotion: promoteRemoteBackup, promoteRemoteBackups

  /** The key of a promoted copy: the generation's prefix joined with the plain name. */
  function PromotedKey(prefix: string, destFrequency: Generation, name: string): string
  {
    JoinPrefix([FrequencyPrefixesFromPrefix(prefix).Get(destFrequency), name])
  }

  /** The record of a promoted copy: only the key, the prefix and the generation change. */
  function PromotedObjectInfo(source: Info, destFrequency: Generation, prefix: string): (r: Info)
    ensures r.name == source.name && r.date == source.date && r.generation == destFrequency
    ensures r.location == PromotedKey(prefix, destFrequency, source.name)
  {
    var frequencyPrefix := FrequencyPrefixesFromPrefix(prefix).Get(destFrequency);
    source.(location := PromotedKey(prefix, destFrequency, source.name), container := frequencyPrefix, generation := destFrequency)
  }

  /** A promoted copy lands where `objectKeyFromFileName` puts a backup of that name. */
  lemma PromotedKeyIsObjectKey(prefix: string, destFrequency: Generation, name: string)
    ensures PromotedKey(prefix, destFrequency, name) == ObjectKeyFromFileName(prefix, destFrequency, name)
  {
    JoinUnderGeneration(prefix, destFrequency, name);
  }

  /**
   * The record of a promoted copy is exactly what a later listing decodes from the copy's key
   * (for a name generated from the template, a prefix without `[DATE]` and a template without
   * a leading `/`).
   */
  lemma PromotedObjectRescans(g0: Generation, destFrequency: Generation, nameFormat: string, prefix: string, date: CalendarDate)
    requires Find(nameFormat, DateToken).Some? && Find(prefix, DateToken).None?
    requires DropLeadingSlash(nameFormat) == nameFormat
    ensures var name := NameFormatToFileName(nameFormat, date);
      var source := ObjectInfoFromKey(g0, nameFormat, prefix, ObjectKeyFromFileName(prefix, g0, name));
      && source.Some?
      && ObjectInfoFromKey(destFrequency, nameFormat, prefix, PromotedKey(prefix, destFrequency, name))
         == Some(PromotedObjectInfo(source.value, destFrequency, prefix))
  {
    var name := NameFormatToFileName(nameFormat, date);
    ObjectInfoRoundTrip(g0, nameFormat, prefix, date);
    ObjectInfoRoundTrip(destFrequency, nameFormat, prefix, date);
    PromotedKeyIsObjectKey(prefix, destFrequency, name);
  }

  /** `promoteRemoteBackup`: server-side copy of the object under the destination generation's prefix. */
  method PromoteRemoteBackup(bucket: Bucket, sourceInfo: Info, destFrequency: Generation, prefix: string)
    returns (r: Result<Info, S3Error>)
    modifies bucket
    ensures r.Ok? <==> sourceInfo.location in old(bucket.objects)
    ensures r.Ok? ==> r.value == PromotedObjectInfo(sourceInfo, destFrequency, prefix)
    ensures r.Ok? ==> (bucket.objects ==
      old(bucket.objects)[PromotedKey(prefix, destFrequency, sourceInfo.name) := old(bucket.objects)[sourceInfo.location]])
    ensures r.Err? ==> bucket.objects == old(bucket.objects)
    ensures bucket.deleteBatches == old(bucket.deleteBatches)
  {
    var newKey := PromotedKey(prefix, destFrequency, sourceInfo.name);
    var c := bucket.CopyObject(newKey, bucket.name + "/" + sourceInfo.location);
    if c.Err? {
      return Err(c.error);
    }
    r := Ok(PromotedObjectInfo(sourceInfo, destFrequency, prefix));
  }

  /** The records of the copies `getPromotions` asks for: weekly first, then monthly. */
  function PromotedObjectRecords(p: Promotions, prefix: string): (r: seq<Info>)
    ensures |r| <= 2
    ensures forall i :: 0 <= i < |r| ==> r[i].generation != Daily
    ensures p.weekly.Some? <==> exists i :: 0 <= i < |r| && r[i].generation == Weekly
    ensures p.monthly.Some? <==> exists i :: 0 <= i < |r| && r[i].generation == Monthly
    ensures forall i :: 0 <= i < |r| ==>
      (r[i].generation == Weekly ==> r[i] == PromotedObjectInfo(p.weekly.value, Weekly, prefix)) &&
      (r[i].generation == Monthly ==> r[i] == PromotedObjectInfo(p.monthly.value, Monthly, prefix))
  {
    match (p.weekly, p.monthly)
    case (Some(w), Some(m)) =>
      var a, b := PromotedObjectInfo(w, Weekly, prefix), PromotedObjectInfo(m, Monthly, prefix);
      assert [a, b][0] == a && [a, b][1] == b;
      [a, b]
    case (Some(w), None) =>
      var a := PromotedObjectInfo(w, Weekly, prefix);
      assert [a][0] == a;
      [a]
    case (None, Some(m)) =>
      var b := PromotedObjectInfo(m, Monthly, prefix);
      assert [b][0] == b;
      [b]
    case (None, None) => []
  }

  /** The keys the promotions copy to. */
  function PromotionKeys(p: Promotions, prefix: string): set<string>
  {
    (if p.weekly.Some? then {PromotedKey(prefix, Weekly, p.weekly.value.name)} else {}) +
    (if p.monthly.Some? then {PromotedKey(prefix, Monthly, p.monthly.value.name)} else {})
  }

  /** Two object maps agree on every key outside `keys`. */
  ghost predicate SameObjectsOutside(a: map<string, seq<bv8>>, b: map<string, seq<bv8>>, keys: set<string>)
  {
    forall k :: k !in keys ==> (k in a <==> k in b) && (k in a ==> a[k] == b[k])
  }

  /** One promotion, when asked for: the copy's record, or the copy's error. */
  method PromoteObjectIfAsked(bucket: Bucket, promotion: Option<Info>, destFrequency: Generation, prefix: string)
    returns (added: seq<Info>, err: Option<S3Error>)
    modifies bucket
    ensures promotion.None? ==> added == [] && err.None? && bucket.objects == old(bucket.objects)
    ensures promotion.Some? ==>
      var target := PromotedKey(prefix, destFrequency, promotion.value.name);
      && (err.None? <==> promotion.value.location in old(bucket.objects))
      && (err.None? ==> added == [PromotedObjectInfo(promotion.value, destFrequency, prefix)] &&
                        bucket.objects == old(bucket.objects)[target := old(bucket.objects)[promotion.value.location]])
      && (err.Some? ==> added == [] && bucket.objects == old(bucket.objects))
    ensures bucket.deleteBatches == old(bucket.deleteBatches)
  {
    added, err := [], None;
    if promotion.Some? {
      var c := PromoteRemoteBackup(bucket, promotion.value, destFrequency, prefix);
      match c
      case Ok(x) => added := [x];
      case Err(e) => err := Some(e);
    }
  }

  /** Both copies a promotion asks for, weekly then monthly (both are attempted; the first failure is reported). */
  method CopyObjectPromotions(bucket: Bucket, p: Promotions, prefix: string) returns (added: seq<Info>, err: Option<S3Error>)
    requires p.weekly.Some? && p.monthly.Some? ==> p.weekly.value == p.monthly.value
    modifies bucket
    ensures err.None? <==>
      (p.weekly.Some? ==> p.weekly.value.location in old(bucket.objects)) &&
      (p.monthly.Some? ==> p.monthly.value.location in old(bucket.objects))
    ensures err.None? ==> added == PromotedObjectRecords(p, prefix)
    ensures SameObjectsOutside(bucket.objects, old(bucket.objects), PromotionKeys(p, prefix))
    ensures err.None? && p.weekly.Some? ==> forall k :: k in PromotionKeys(p, prefix) ==>
      k in bucket.objects && bucket.objects[k] == old(bucket.objects)[p.weekly.value.location]
    ensures err.None? && p.monthly.Some? ==> forall k :: k in PromotionKeys(p, prefix) ==>
      k in bucket.objects && bucket.objects[k] == old(bucket.objects)[p.monthly.value.location]
    ensures bucket.deleteBatches == old(bucket.deleteBatches)
  {
    ghost var objects0 := bucket.objects;
    var weekly, weeklyErr := PromoteObjectIfAsked(bucket, p.weekly, Weekly, prefix);
    ghost var objects1 := bucket.objects;
    var monthly, monthlyErr := PromoteObjectIfAsked(bucket, p.monthly, Monthly, prefix);
    ghost var objects2 := bucket.objects;
    ghost var targets := PromotionKeys(p, prefix);
    assert SameObjectsOutside(objects2, objects0, targets);
    err := if weeklyErr.Some? then weeklyErr else monthlyErr;
    added := weekly + monthly;
    if err.None? && targets != {} {
      var source := if p.weekly.Some? then p.weekly.value else p.monthly.value;
      assert source.location in objects1 && objects1[source.location] == objects0[source.location];
      forall k | k in targets
        ensures k in objects2 && objects2[k] == objects0[source.location]
      {
        if p.monthly.Some? && k == PromotedKey(prefix, Monthly, source.name) {
          assert objects2[k] == objects1[source.location];
        } else {
          assert objects2[k] == objects1[k];
        }
      }
    }
  }

  /**
   * `promoteRemoteBackups`: makes the copies `getPromotions` asks for and returns every input
   * record plus the copies' records, youngest first. Only the target keys change, and each
   * receives the content of the youngest daily object.
   */
  method PromoteRemoteBackups(bucket: Bucket, today: CalendarDate, num: ByGeneration<nat>, prefix: string, objectInfos: seq<Info>)
    returns (r: Result<seq<Info>, S3Error>)
    modifies bucket
    ensures var p := GetPromotions(today, num, objectInfos);
      r.Ok? <==>
        (p.weekly.Some? ==> p.weekly.value.location in old(bucket.objects)) &&
        (p.monthly.Some? ==> p.monthly.value.location in old(bucket.objects))
    ensures r.Ok? ==> r.value == SortInfoNewestFirst(objectInfos + PromotedObjectRecords(GetPromotions(today, num, objectInfos), prefix))
    ensures r.Ok? ==> (SortedNewestFirst(r.value) &&
      multiset(r.value) == multiset(objectInfos) + multiset(PromotedObjectRecords(GetPromotions(today, num, objectInfos), prefix)))
    ensures SameObjectsOutside(bucket.objects, old(bucket.objects), PromotionKeys(GetPromotions(today, num, objectInfos), prefix))
    ensures r.Ok? ==> forall k :: k in PromotionKeys(GetPromotions(today, num, objectInfos), prefix) ==>
      k in bucket.objects && bucket.objects[k] == old(bucket.objects)[OfGeneration(objectInfos, Daily)[0].location]
    ensures bucket.deleteBatches == old(bucket.deleteBatches)
  {
    var promotions := GetPromotions(today, num, objectInfos);
    var added, err := CopyObjectPromotions(bucket, promotions, prefix);
    if err.Some? {
      return Err(err.value);
    }
    r := Ok(SortInfoNewestFirst(objectInfos + added));
  }

  /** Remote promotion is idempotent within a day, as local promotion is. */
  lemma RemotePromotionIdempotent(today: CalendarDate, num: ByGeneration<nat>, prefix: string, objectInfos: seq<Info>)
    requires SortedNewestFirst(objectInfos)
    requires OfGeneration(objectInfos, Daily) != [] && OfGeneration(objectInfos, Daily)[0].date == today
    ensures var added := PromotedObjectRecords(GetPromotions(today, num, objectInfos), prefix);
      GetPromotions(today, num, SortInfoNewestFirst(objectInfos + added)) == Promotions(None, None)
  {
    var added := PromotedObjectRecords(GetPromotions(today, num, objectInfos), prefix);
    PromotionIdempotent(today, num, objectInfos, added);
  }

  // ---------------------------------------------------------------------------------------
  // Expiry: removeExpiredRemoteBackups

  /** The keys of some records, in order. */
  function KeysOf(xs: seq<Info>): (r: seq<string>)
    ensures |r| == |xs| && forall i :: 0 <= i < |xs| ==> r[i] == xs[i].location
  {
    if xs == [] then [] else [xs[0].location] + KeysOf(xs[1..])
  }

  /**
   * `removeExpiredRemoteBackups`: one batch delete naming exactly the keys `getExpiredInfos`
   * returns (also when there are none), then the input minus the records with a deleted key,
   * in order.
   */
  method RemoveExpiredRemoteBackups(bucket: Bucket, num: ByGeneration<nat>, objectInfos: seq<Info>) returns (r: seq<Info>)
    modifies bucket
    ensures bucket.deleteBatches == old(bucket.deleteBatches) + [KeysOf(GetExpiredInfos(num, objectInfos))]
    ensures bucket.objects == old(bucket.objects) - Locations(GetExpiredInfos(num, objectInfos))
    ensures r == WithoutLocations(objectInfos, Locations(GetExpiredInfos(num, objectInfos)))
    ensures GetExpiredInfos(num, objectInfos) == [] ==> r == objectInfos
  {
    var expiredInfos := GetExpiredInfos(num, objectInfos);
    var keys := KeysOf(expiredInfos);
    assert (set k | k in keys) == Locations(expiredInfos) by {
      forall k | k in keys ensures k in Locations(expiredInfos) {
        var i :| 0 <= i < |keys| && keys[i] == k;
        assert expiredInfos[i] in expiredInfos;
      }
      forall k | k in Locations(expiredInfos) ensures k in keys {
        var x :| x in expiredInfos && x.location == k;
        var i :| 0 <= i < |expiredInfos| && expiredInfos[i] == x;
        assert keys[i] == k;
      }
    }
    bucket.DeleteObjects(keys);
    r := WithoutLocations(objectInfos, Locations(expiredInfos));
  }

  // ---------------------------------------------------------------------------------------
  // copyYoungestLocalBackupToRemote

  datatype UploadError = LocalScanFailed(error: FsError) | NoLocalBackups | LocalReadFailed(path: string)

  /** What the upload resolves to: the object's key and the local file's path. */
  datatype Uploaded = Uploaded(key: string, localFileNameFull: string)

  /**
   * The first record of the scan: no other scanned record is younger, and on equal dates the
   * daily record comes before the weekly one, and the weekly before the monthly one.
   */
  ghost predicate YoungestScanned(fs: FileSystem, nameFormat: string, dests: ByGeneration<string>, x: Info)
    reads fs
  {
    && Scanned(fs, nameFormat, dests, x)
    && (forall y :: Scanned(fs, nameFormat, dests, y) ==> y.Stamp() <= x.Stamp())
    && (forall y :: Scanned(fs, nameFormat, dests, y) && ScannedBefore(y.generation, x.generation) ==> y.Stamp() < x.Stamp())
  }

  /** The scan `copyYoungestLocalBackupToRemote` starts with: the first record of `getLocalInfos`, when there is one. */
  method YoungestLocalBackup(fs: FileSystem, localBackupDest: string, fileFormat: string) returns (r: Result<Info, UploadError>)
    ensures var sub := BackupSubFolderPathsFromDest(localBackupDest);
      r == Err(NoLocalBackups) <==>
        fs.DirExists(sub.daily) && fs.DirExists(sub.weekly) && fs.DirExists(sub.monthly) &&
        forall x :: !Scanned(fs, fileFormat, sub, x)
    ensures r.Err? ==> r.error.LocalScanFailed? || r.error.NoLocalBackups?
    ensures r.Ok? ==> YoungestScanned(fs, fileFormat, BackupSubFolderPathsFromDest(localBackupDest), r.value)
  {
    var localSubFolders := BackupSubFolderPathsFromDest(localBackupDest);
    assert localSubFolders == ByGeneration(localSubFolders.daily, localSubFolders.weekly, localSubFolders.monthly);
    var scan := GetLocalInfos(fs, fileFormat, localSubFolders.daily, localSubFolders.weekly, localSubFolders.monthly);
    if scan.Err? {
      return Err(LocalScanFailed(scan.error));
    }
    var infos := scan.value;
    if |infos| == 0 {
      forall x ensures !Scanned(fs, fileFormat, localSubFolders, x) {
        assert x !in infos;
      }
      return Err(NoLocalBackups);
    }
    var localInfo := infos[0];
    assert localInfo in infos;
    forall y | Scanned(fs, fileFormat, localSubFolders, y)
      ensures y.Stamp() <= localInfo.Stamp()
      ensures ScannedBefore(y.generation, localInfo.generation) ==> y.Stamp() < localInfo.Stamp()
    {
      assert y in infos;
    }
    r := Ok(localInfo);
  }

  /**
   * `copyYoungestLocalBackupToRemote`: scans the three local folders, and uploads the youngest
   * record found (of any generation) under the daily prefix. Fails when the scan fails, when no
   * local backup exists, or when the file cannot be read.
   */
  method CopyYoungestLocalBackupToRemote(fs: FileSystem, bucket: Bucket, localBackupDest: string, fileFormat: string, prefix: string)
    returns (r: Result<Uploaded, UploadError>)
    modifies bucket
    ensures var sub := BackupSubFolderPathsFromDest(localBackupDest);
      r == Err(NoLocalBackups) <==>
        fs.DirExists(sub.daily) && fs.DirExists(sub.weekly) && fs.DirExists(sub.monthly) &&
        forall x :: !Scanned(fs, fileFormat, sub, x)
    ensures r.Ok? ==> exists x :: (YoungestScanned(fs, fileFormat, BackupSubFolderPathsFromDest(localBackupDest), x) &&
        r.value == Uploaded(ObjectKeyFromFileName(prefix, Daily, x.name), x.location) &&
        x.location in fs.files && bucket.objects == old(bucket.objects)[r.value.key := fs.files[x.location]])
    ensures r.Err? ==> bucket.objects == old(bucket.objects)
    ensures bucket.deleteBatches == old(bucket.deleteBatches)
  {
    var youngest := YoungestLocalBackup(fs, localBackupDest, fileFormat);
    if youngest.Err? {
      return Err(youngest.error);
    }
    var localInfo := youngest.value;
    if localInfo.location !in fs.files {
      return Err(LocalReadFailed(localInfo.location));
    }
    var key := ObjectKeyFromFileName(prefix, Daily, localInfo.name);
    bucket.Upload(key, fs.files[localInfo.location]);
    r := Ok(Uploaded(key, localInfo.location));
    assert YoungestScanned(fs, fileFormat, BackupSubFolderPathsFromDest(localBackupDest), localInfo);
  }
}
