/**
 * lib/local-backups.js: the retention lifecycle on the local disk. Backup files are found by
 * listing the daily, weekly and monthly folders; promotion copies the youngest daily file into
 * the weekly or monthly folder; expiry deletes the files beyond each generation's quota; the
 * three folders are created when missing; and a capture writes the output of a pipeline of
 * external programs to a new file, removing that file again when the pipeline fails.
 */
module LocalBackups {
  import opened Wrappers
  import opened Dates
  import opened Infos
  import opened Seqs
  import opened Utils
  import opened FileUtils

  // ---------------------------------------------------------------------------------------
  // Scanning: getLocalBackups, getLocalInfosSingle, getLocalInfos

  /** The entries whose whole name matches the template's pattern, in listing order. */
  function MatchingNames(nameFormat: string, entries: seq<string>): (r: seq<string>)
    ensures forall n :: n in r <==> n in entries && Matches(NameFormatToRegex(nameFormat), n)
    ensures IsSubsequence(r, entries)
  {
    var p := NameFormatToRegex(nameFormat);
    var keep := (n: string) => Matches(p, n);
    FilterIsSubsequence(entries, keep);
    Filter(entries, keep)
  }

  /** `getLocalBackups`: the names in `folder` that match the template. */
  method GetLocalBackups(fs: FileSystem, nameFormat: string, folder: string) returns (r: Result<seq<string>, FsError>)
    ensures !fs.DirExists(folder) ==> r == Err(FsError(fs.MissingCode(folder), folder))
    ensures fs.DirExists(folder) ==> (r.Ok? &&
      forall n :: n in r.value <==> n in fs.Entries(folder) && Matches(NameFormatToRegex(nameFormat), n))
  {
    var entries := fs.Readdir(folder);
    match entries
    case Err(e) => r := Err(e);
    case Ok(names) => r := Ok(MatchingNames(nameFormat, names));
  }

  /**
   * The records decoded from matching names, in order. A name whose digits do not spell a
   * calendar date has no record (the source builds one with an invalid date).
   */
  function FileInfosFromNames(frequency: Generation, nameFormat: string, folder: string, names: seq<string>): (r: seq<Info>)
    ensures |r| <= |names|
    ensures forall x :: x in r <==> x.name in names && FileInfoFromName(frequency, nameFormat, folder, x.name) == Some(x)
  {
    if names == [] then []
    else
      var rest := FileInfosFromNames(frequency, nameFormat, folder, names[1..]);
      match FileInfoFromName(frequency, nameFormat, folder, names[0])
      case None => rest
      case Some(x) => [x] + rest
  }

  /** When every name decodes (as every matching name with a valid date does), the records correspond one to one with the names. */
  lemma {:induction false} AllNamesDecode(frequency: Generation, nameFormat: string, folder: string, names: seq<string>)
    requires forall i :: 0 <= i < |names| ==> FileInfoFromName(frequency, nameFormat, folder, names[i]).Some?
    ensures var r := FileInfosFromNames(frequency, nameFormat, folder, names);
      |r| == |names| && forall i :: 0 <= i < |r| ==> FileInfoFromName(frequency, nameFormat, folder, names[i]) == Some(r[i])
  {
    if names != [] {
      AllNamesDecode(frequency, nameFormat, folder, names[1..]);
      var rest := FileInfosFromNames(frequency, nameFormat, folder, names[1..]);
      var r := FileInfosFromNames(frequency, nameFormat, folder, names);
      assert r == [FileInfoFromName(frequency, nameFormat, folder, names[0]).value] + rest;
      forall i | 0 < i < |r| ensures FileInfoFromName(frequency, nameFormat, folder, names[i]) == Some(r[i]) {
        assert names[1..][i - 1] == names[i];
      }
    }
  }

  /** The record of one file of one generation, as the scan of its folder finds it. */
  predicate Scanned(fs: FileSystem, nameFormat: string, dests: ByGeneration<string>, x: Info)
    reads fs
  {
    var folder := dests.Get(x.generation);
    x.name in fs.Entries(folder) && FileInfoFromName(x.generation, nameFormat, folder, x.name) == Some(x)
  }

  /** `getLocalInfosSingle`: the records of the backups in one generation's folder. */
  method GetLocalInfosSingle(fs: FileSystem, frequency: Generation, nameFormat: string, backupDest: string)
    returns (r: Result<seq<Info>, FsError>)
    ensures !fs.DirExists(backupDest) ==> r == Err(FsError(fs.MissingCode(backupDest), backupDest))
    ensures fs.DirExists(backupDest) ==> (r.Ok? &&
      forall x :: x in r.value <==> x.generation == frequency && Scanned(fs, nameFormat, ByGeneration(backupDest, backupDest, backupDest), x))
  {
    var names := GetLocalBackups(fs, nameFormat, backupDest);
    match names
    case Err(e) => r := Err(e);
    case Ok(ns) => r := Ok(FileInfosFromNames(frequency, nameFormat, backupDest, ns));
  }

  /** Generation `a` comes before `b` in the daily, weekly, monthly order of the scan. */
  predicate ScannedBefore(a: Generation, b: Generation) {
    (a == Daily && b != Daily) || (a == Weekly && b == Monthly)
  }

  /**
   * Of `daily ++ weekly ++ monthly`, sorted youngest first, the head is strictly younger than
   * every record of a generation scanned before its own: on equal dates the earlier
   * generation's record comes first.
   */
  lemma SortedHeadTieBreak(d: seq<Info>, w: seq<Info>, m: seq<Info>)
    requires forall x :: x in d ==> x.generation == Daily
    requires forall x :: x in w ==> x.generation == Weekly
    requires forall x :: x in m ==> x.generation == Monthly
    requires d + w + m != []
    ensures var head := SortInfoNewestFirst(d + w + m)[0];
      forall x :: x in d + w + m && ScannedBefore(x.generation, head.generation) ==> x.Stamp() < head.Stamp()
  {
    var all := d + w + m;
    var head := SortInfoNewestFirst(all)[0];
    SortHeadIsFirstYoungest(all);
    var k :| 0 <= k < |all| && all[k] == head && forall j :: 0 <= j < k ==> all[j].Stamp() < all[k].Stamp();
    forall i | 0 <= i < |all|
      ensures i < |d| ==> all[i].generation == Daily
      ensures |d| <= i < |d| + |w| ==> all[i].generation == Weekly
      ensures |d| + |w| <= i ==> all[i].generation == Monthly
    {
      if i < |d| {
        assert all[i] == d[i];
      } else if i < |d| + |w| {
        assert all[i] == w[i - |d|];
      } else {
        assert all[i] == m[i - |d| - |w|];
      }
    }
    forall x | x in all && ScannedBefore(x.generation, head.generation)
      ensures x.Stamp() < head.Stamp()
    {
      var j :| 0 <= j < |all| && all[j] == x;
    }
  }

  /**
   * `getLocalInfos`: the records of all three folders, youngest first. The first folder (in
   * daily, weekly, monthly order) that cannot be listed fails the scan.
   */
  method GetLocalInfos(fs: FileSystem, nameFormat: string, dailyDest: string, weeklyDest: string, monthlyDest: string)
    returns (r: Result<seq<Info>, FsError>)
    ensures r.Ok? <==> fs.DirExists(dailyDest) && fs.DirExists(weeklyDest) && fs.DirExists(monthlyDest)
    ensures r.Err? ==>
      var missing := if !fs.DirExists(dailyDest) then dailyDest else if !fs.DirExists(weeklyDest) then weeklyDest else monthlyDest;
      r.error == FsError(fs.MissingCode(missing), missing)
    ensures r.Ok? ==> (SortedNewestFirst(r.value) &&
      forall x :: x in r.value <==> Scanned(fs, nameFormat, ByGeneration(dailyDest, weeklyDest, monthlyDest), x))
    ensures r.Ok? && r.value != [] ==>
      forall x :: x in r.value && ScannedBefore(x.generation, r.value[0].generation) ==> x.Stamp() < r.value[0].Stamp()
  {
    var d := GetLocalInfosSingle(fs, Daily, nameFormat, dailyDest);
    var w := GetLocalInfosSingle(fs, Weekly, nameFormat, weeklyDest);
    var m := GetLocalInfosSingle(fs, Monthly, nameFormat, monthlyDest);
    if d.Err? {
      return Err(d.error);
    } else if w.Err? {
      return Err(w.error);
    } else if m.Err? {
      return Err(m.error);
    }
    var all := d.value + w.value + m.value;
    ghost var dests := ByGeneration(dailyDest, weeklyDest, monthlyDest);
    forall x ensures x in all <==> Scanned(fs, nameFormat, dests, x) {
      var folder := dests.Get(x.generation);
      assert Scanned(fs, nameFormat, ByGeneration(folder, folder, folder), x) <==> Scanned(fs, nameFormat, dests, x);
      assert x in all <==> x in d.value || x in w.value || x in m.value;
    }
    SortKeepsMembers(all);
    if all != [] {
      SortedHeadTieBreak(d.value, w.value, m.value);
    }
    r := Ok(SortInfoNewestFirst(all));
  }

  // ---------------------------------------------------------------------------------------
  // Promotion: promoteLocalBackup, promoteLocalBackups

  /** The record of a promoted copy: only the path, the folder and the generation change. */
  function PromotedFileInfo(source: Info, frequency: Generation, destFolder: string): (r: Info)
    ensures r.name == source.name && r.date == source.date && r.generation == frequency
  {
    var newFilePath := PathJoin(destFolder, source.name);
    source.(location := newFilePath, container := Dirname(newFilePath), generation := frequency)
  }

  /**
   * The record of a promoted copy is exactly what a later scan of the destination folder
   * decodes from the copy's name.
   */
  lemma PromotedRecordRescans(g0: Generation, frequency: Generation, nameFormat: string, folder: string, destFolder: string, name: string)
    requires FileInfoFromName(g0, nameFormat, folder, name).Some?
    requires DropTrailingSlash(destFolder) != "" && HasNoSlash(name)
    ensures FileInfoFromName(frequency, nameFormat, destFolder, name)
      == Some(PromotedFileInfo(FileInfoFromName(g0, nameFormat, folder, name).value, frequency, destFolder))
  {
    var source := FileInfoFromName(g0, nameFormat, folder, name).value;
    var p := NameFormatToRegex(nameFormat);
    assert CapturedDate(p, name).Some?;
    assert name != [] by {
      assert |Captured(p, name)| == 8;
    }
    PathJoinSplits(destFolder, name);
    assert DropLeadingSlash(name) == name;
    assert PathJoin(destFolder, name) == DropTrailingSlash(destFolder) + "/" + name;
  }

  /** The copy can be made: the source is a file, and the target's folder exists and is not itself a folder. */
  predicate CopyAllowed(fs: FileSystem, src: string, dst: string)
    reads fs
  {
    src in fs.files && fs.DirExists(Dirname(dst)) && dst !in fs.dirs
  }

  /** `promoteLocalBackup`: copies the backup file into `destFolder` and returns the copy's record. */
  method PromoteLocalBackup(fs: FileSystem, sourceInfo: Info, destFrequency: Generation, destFolder: string)
    returns (r: Result<Info, FsError>)
    modifies fs
    ensures r.Ok? <==> old(CopyAllowed(fs, sourceInfo.location, PathJoin(destFolder, sourceInfo.name)))
    ensures r.Ok? ==> r.value == PromotedFileInfo(sourceInfo, destFrequency, destFolder)
    ensures r.Ok? ==> fs.files == old(fs.files)[PathJoin(destFolder, sourceInfo.name) := old(fs.files)[sourceInfo.location]]
    ensures r.Err? ==> fs.files == old(fs.files)
    ensures fs.dirs == old(fs.dirs)
  {
    var newFilePath := PathJoin(destFolder, sourceInfo.name);
    var c := fs.CopyFile(sourceInfo.location, newFilePath);
    if c.Err? {
      return Err(c.error);
    }
    r := Ok(PromotedFileInfo(sourceInfo, destFrequency, destFolder));
  }

  /** The records of the copies `getPromotions` asks for: weekly first, then monthly. */
  function PromotedRecords(p: Promotions, weeklyDest: string, monthlyDest: string): (r: seq<Info>)
    ensures |r| <= 2
    ensures forall i :: 0 <= i < |r| ==> r[i].generation != Daily
    ensures p.weekly.Some? <==> exists i :: 0 <= i < |r| && r[i].generation == Weekly
    ensures p.monthly.Some? <==> exists i :: 0 <= i < |r| && r[i].generation == Monthly
    ensures forall i :: 0 <= i < |r| ==>
      (r[i].generation == Weekly ==> r[i] == PromotedFileInfo(p.weekly.value, Weekly, weeklyDest)) &&
      (r[i].generation == Monthly ==> r[i] == PromotedFileInfo(p.monthly.value, Monthly, monthlyDest))
  {
    match (p.weekly, p.monthly)
    case (Some(w), Some(m)) =>
      var a, b := PromotedFileInfo(w, Weekly, weeklyDest), PromotedFileInfo(m, Monthly, monthlyDest);
      assert [a, b][0] == a && [a, b][1] == b;
      [a, b]
    case (Some(w), None) =>
      var a := PromotedFileInfo(w, Weekly, weeklyDest);
      assert [a][0] == a;
      [a]
    case (None, Some(m)) =>
      var b := PromotedFileInfo(m, Monthly, monthlyDest);
      assert [b][0] == b;
      [b]
    case (None, None) => []
  }

  /** The paths the promotions copy to. */
  function PromotionTargets(p: Promotions, weeklyDest: string, monthlyDest: string): set<string>
  {
    (if p.weekly.Some? then {PathJoin(weeklyDest, p.weekly.value.name)} else {}) +
    (if p.monthly.Some? then {PathJoin(monthlyDest, p.monthly.value.name)} else {})
  }

  /** Two file maps agree on every path outside `paths`. */
  ghost predicate SameOutside(a: map<string, seq<bv8>>, b: map<string, seq<bv8>>, paths: set<string>)
  {
    forall path :: path !in paths ==> (path in a <==> path in b) && (path in a ==> a[path] == b[path])
  }

  /** One promotion, when asked for: the copy's record, or the copy's error. */
  method PromoteIfAsked(fs: FileSystem, promotion: Option<Info>, destFrequency: Generation, destFolder: string)
    returns (added: seq<Info>, err: Option<FsError>)
    modifies fs
    ensures promotion.None? ==> added == [] && err.None? && fs.files == old(fs.files)
    ensures promotion.Some? ==>
      var target := PathJoin(destFolder, promotion.value.name);
      && (err.None? <==> old(CopyAllowed(fs, promotion.value.location, target)))
      && (err.None? ==> added == [PromotedFileInfo(promotion.value, destFrequency, destFolder)] &&
                        fs.files == old(fs.files)[target := old(fs.files)[promotion.value.location]])
      && (err.Some? ==> added == [] && fs.files == old(fs.files))
    ensures fs.dirs == old(fs.dirs)
  {
    added, err := [], None;
    if promotion.Some? {
      var c := PromoteLocalBackup(fs, promotion.value, destFrequency, destFolder);
      match c
      case Ok(x) => added := [x];
      case Err(e) => err := Some(e);
    }
  }

  /**
   * Both copies a promotion asks for, weekly then monthly (both are attempted; the first
   * failure is reported). Only the targets change, and each receives the source's content.
   */
  method CopyPromotions(fs: FileSystem, p: Promotions, weeklyDest: string, monthlyDest: string)
    returns (added: seq<Info>, err: Option<FsError>)
    requires p.weekly.Some? && p.monthly.Some? ==> p.weekly.value == p.monthly.value
    modifies fs
    ensures err.None? <==>
      (p.weekly.Some? ==> old(CopyAllowed(fs, p.weekly.value.location, PathJoin(weeklyDest, p.weekly.value.name)))) &&
      (p.monthly.Some? ==> old(CopyAllowed(fs, p.monthly.value.location, PathJoin(monthlyDest, p.monthly.value.name))))
    ensures err.None? ==> added == PromotedRecords(p, weeklyDest, monthlyDest)
    ensures SameOutside(fs.files, old(fs.files), PromotionTargets(p, weeklyDest, monthlyDest))
    ensures err.None? && p.weekly.Some? ==> forall t :: t in PromotionTargets(p, weeklyDest, monthlyDest) ==>
      t in fs.files && fs.files[t] == old(fs.files)[p.weekly.value.location]
    ensures err.None? && p.monthly.Some? ==> forall t :: t in PromotionTargets(p, weeklyDest, monthlyDest) ==>
      t in fs.files && fs.files[t] == old(fs.files)[p.monthly.value.location]
    ensures fs.dirs == old(fs.dirs)
  {
    ghost var files0 := fs.files;
    var weekly, weeklyErr := PromoteIfAsked(fs, p.weekly, Weekly, weeklyDest);
    ghost var files1 := fs.files;
    var monthly, monthlyErr := PromoteIfAsked(fs, p.monthly, Monthly, monthlyDest);
    ghost var files2 := fs.files;
    ghost var targets := PromotionTargets(p, weeklyDest, monthlyDest);
    assert SameOutside(files2, files0, targets);
    err := if weeklyErr.Some? then weeklyErr else monthlyErr;
    added := weekly + monthly;
    if err.None? && targets != {} {
      var source := if p.weekly.Some? then p.weekly.value else p.monthly.value;
      assert source.location in files1 && files1[source.location] == files0[source.location];
      forall t | t in targets
        ensures t in files2 && files2[t] == files0[source.location]
      {
        if p.monthly.Some? && t == PathJoin(monthlyDest, source.name) {
          assert files2[t] == files1[source.location];
        } else {
          assert files2[t] == files1[t];
        }
      }
    }
  }

  /**
   * `promoteLocalBackups`: makes the copies `getPromotions` asks for and returns every input
   * record plus the copies' records, youngest first. Only the targets change, and each
   * receives the content of the youngest daily backup.
   */
  method PromoteLocalBackups(fs: FileSystem, today: CalendarDate, num: ByGeneration<nat>, weeklyDest: string, monthlyDest: string,
                             fileInfos: seq<Info>)
    returns (r: Result<seq<Info>, FsError>)
    modifies fs
    ensures var p := GetPromotions(today, num, fileInfos);
      r.Ok? <==>
        (p.weekly.Some? ==> old(CopyAllowed(fs, p.weekly.value.location, PathJoin(weeklyDest, p.weekly.value.name)))) &&
        (p.monthly.Some? ==> old(CopyAllowed(fs, p.monthly.value.location, PathJoin(monthlyDest, p.monthly.value.name))))
    ensures r.Ok? ==> r.value == SortInfoNewestFirst(fileInfos + PromotedRecords(GetPromotions(today, num, fileInfos), weeklyDest, monthlyDest))
    ensures r.Ok? ==> (SortedNewestFirst(r.value) &&
      multiset(r.value) == multiset(fileInfos) + multiset(PromotedRecords(GetPromotions(today, num, fileInfos), weeklyDest, monthlyDest)))
    ensures SameOutside(fs.files, old(fs.files), PromotionTargets(GetPromotions(today, num, fileInfos), weeklyDest, monthlyDest))
    ensures r.Ok? ==> forall t :: t in PromotionTargets(GetPromotions(today, num, fileInfos), weeklyDest, monthlyDest) ==>
      t in fs.files && fs.files[t] == old(fs.files)[OfGeneration(fileInfos, Daily)[0].location]
    ensures fs.dirs == old(fs.dirs)
  {
    var promotions := GetPromotions(today, num, fileInfos);
    var added, err := CopyPromotions(fs, promotions, weeklyDest, monthlyDest);
    if err.Some? {
      return Err(err.value);
    }
    r := Ok(SortInfoNewestFirst(fileInfos + added));
  }

  /**
   * Promotion is idempotent within a day: after today's daily backup was promoted, running the
   * promotion again on the returned records asks for no copy.
   */
  lemma LocalPromotionIdempotent(today: CalendarDate, num: ByGeneration<nat>, weeklyDest: string, monthlyDest: string,
                                 fileInfos: seq<Info>)
    requires SortedNewestFirst(fileInfos)
    requires OfGeneration(fileInfos, Daily) != [] && OfGeneration(fileInfos, Daily)[0].date == today
    ensures var added := PromotedRecords(GetPromotions(today, num, fileInfos), weeklyDest, monthlyDest);
      GetPromotions(today, num, SortInfoNewestFirst(fileInfos + added)) == Promotions(None, None)
  {
    var p := GetPromotions(today, num, fileInfos);
    var added := PromotedRecords(p, weeklyDest, monthlyDest);
    PromotionIdempotent(today, num, fileInfos, added);
  }

  // ---------------------------------------------------------------------------------------
  // Expiry: removeExpiredLocalBackups

  /** The paths (local) or keys (remote) of some records. */
  function Locations(xs: seq<Info>): (r: set<string>)
    ensures forall x :: x in xs ==> x.location in r
  {
    set x | x in xs :: x.location
  }

  /** The records whose path or key is not among `locs`, in their original order. */
  function WithoutLocations(xs: seq<Info>, locs: set<string>): (r: seq<Info>)
    ensures forall x :: x in r <==> x in xs && x.location !in locs
    ensures IsSubsequence(r, xs)
    ensures locs == {} ==> r == xs
  {
    var keep := (x: Info) => x.location !in locs;
    FilterIsSubsequence(xs, keep);
    if locs == {} then FilterAll(xs, keep); Filter(xs, keep) else Filter(xs, keep)
  }

  /** No two records share a path or key. */
  predicate DistinctLocations(xs: seq<Info>) {
    forall i, j :: 0 <= i < j < |xs| ==> xs[i].location != xs[j].location
  }

  lemma LocationsSnoc(xs: seq<Info>, x: Info)
    ensures Locations(xs + [x]) == Locations(xs) + {x.location}
  {
    assert forall y :: y in xs + [x] <==> y in xs || y == x;
  }

  lemma DistinctLocationsSnoc(xs: seq<Info>, x: Info)
    ensures DistinctLocations(xs + [x]) <==> DistinctLocations(xs) && x.location !in Locations(xs)
  {
    var ys := xs + [x];
    if DistinctLocations(ys) {
      assert forall i, j :: 0 <= i < j < |xs| ==> xs[i] == ys[i] && xs[j] == ys[j];
      forall y | y in xs
        ensures y.location != x.location
      {
        var i :| 0 <= i < |xs| && xs[i] == y;
        assert ys[i] == y && ys[|xs|] == x;
      }
    }
  }

  lemma MinusOneMore(m: map<string, seq<bv8>>, a: set<string>, k: string)
    ensures (m - a) - {k} == m - (a + {k})
    ensures k !in m - a ==> m - a == m - (a + {k})
  {
  }

  /**
   * Deletes the file of every record in turn (each deletion is attempted) and reports the
   * first failure. Deleting succeeds throughout exactly when every path exists and none repeats.
   */
  method UnlinkAll(fs: FileSystem, expiredInfos: seq<Info>) returns (firstErr: Option<FsError>)
    modifies fs
    ensures firstErr.None? <==>
      (forall i :: 0 <= i < |expiredInfos| ==> expiredInfos[i].location in old(fs.files)) && DistinctLocations(expiredInfos)
    ensures fs.files == old(fs.files) - Locations(expiredInfos)
    ensures fs.dirs == old(fs.dirs)
  {
    var i := 0;
    firstErr := None;
    while i < |expiredInfos|
      invariant 0 <= i <= |expiredInfos|
      invariant fs.files == old(fs.files) - Locations(expiredInfos[..i])
      invariant fs.dirs == old(fs.dirs)
      invariant firstErr.None? <==>
        (forall k :: 0 <= k < i ==> expiredInfos[k].location in old(fs.files)) && DistinctLocations(expiredInfos[..i])
    {
      var x := expiredInfos[i];
      LocationsSnoc(expiredInfos[..i], x);
      DistinctLocationsSnoc(expiredInfos[..i], x);
      assert expiredInfos[..i + 1] == expiredInfos[..i] + [x];
      MinusOneMore(old(fs.files), Locations(expiredInfos[..i]), x.location);
      var u := fs.Unlink(x.location);
      if u.Err? && firstErr.None? {
        firstErr := Some(u.error);
      }
      i := i + 1;
    }
    assert expiredInfos[..i] == expiredInfos;
  }

  /**
   * `removeExpiredLocalBackups`: deletes the file of every record `getExpiredInfos` returns
   * and returns the input minus the records with a deleted path, in order. With nothing
   * expired nothing is touched; no file but the expired ones changes.
   */
  method RemoveExpiredLocalBackups(fs: FileSystem, num: ByGeneration<nat>, fileInfos: seq<Info>)
    returns (r: Result<seq<Info>, FsError>)
    modifies fs
    ensures GetExpiredInfos(num, fileInfos) == [] ==> r == Ok(fileInfos)
    ensures var expired := GetExpiredInfos(num, fileInfos);
      r.Ok? <==> (forall i :: 0 <= i < |expired| ==> expired[i].location in old(fs.files)) && DistinctLocations(expired)
    ensures r.Ok? ==> r.value == WithoutLocations(fileInfos, Locations(GetExpiredInfos(num, fileInfos)))
    ensures fs.files == old(fs.files) - Locations(GetExpiredInfos(num, fileInfos))
    ensures fs.dirs == old(fs.dirs)
  {
    var expiredInfos := GetExpiredInfos(num, fileInfos);
    if |expiredInfos| == 0 {
      assert Locations(expiredInfos) == {};
      return Ok(fileInfos);
    }
    var firstErr := UnlinkAll(fs, expiredInfos);
    if firstErr.Some? {
      return Err(firstErr.value);
    }
    r := Ok(WithoutLocations(fileInfos, Locations(expiredInfos)));
  }

  /** The first `n` records of `xs` (all of them when there are at most `n`). */
  function Within(xs: seq<Info>, n: nat): (r: seq<Info>)
    ensures |r| == if |xs| <= n then |xs| else n
  {
    if |xs| <= n then xs else xs[..n]
  }

  lemma {:induction false} DistinctLocationsOfGeneration(xs: seq<Info>, g: Generation)
    requires DistinctLocations(xs)
    ensures DistinctLocations(OfGeneration(xs, g))
  {
    if xs != [] {
      var tail := xs[1..];
      assert DistinctLocations(tail) by {
        assert forall i, j :: 0 <= i < j < |tail| ==> tail[i] == xs[i + 1] && tail[j] == xs[j + 1];
      }
      DistinctLocationsOfGeneration(tail, g);
      if xs[0].generation == g {
        var rest := OfGeneration(tail, g);
        var ys := [xs[0]] + rest;
        forall i, j | 0 <= i < j < |ys|
          ensures ys[i].location != ys[j].location
        {
          if i == 0 {
            assert ys[j] in tail;
            var k :| 0 <= k < |tail| && tail[k] == ys[j];
            assert xs[k + 1] == ys[j];
          } else {
            assert ys[i] == rest[i - 1] && ys[j] == rest[j - 1];
          }
        }
      }
    }
  }

  /** In a sequence without repeated locations, no record is both within the first `n` and beyond them. */
  lemma WithinBeyondDisjoint(xs: seq<Info>, n: nat, x: Info)
    requires DistinctLocations(xs)
    ensures x in xs <==> x in Within(xs, n) || x in Beyond(xs, n)
    ensures !(x in Within(xs, n) && x in Beyond(xs, n))
  {
    if |xs| > n {
      assert xs == xs[..n] + xs[n..];
      forall i, j | 0 <= i < n <= j < |xs|
        ensures xs[i] != xs[j]
      {
        assert xs[i].location != xs[j].location;
      }
      assert forall y :: y in xs[..n] ==> exists i :: 0 <= i < n && xs[i] == y;
      assert forall y :: y in xs[n..] ==> exists j :: n <= j < |xs| && xs[j] == y;
    }
  }

  /**
   * What expiry keeps: when no two records share a path, a record survives exactly when it is
   * among the first `num[generation]` records of its own generation.
   */
  lemma KeptAreWithinQuota(num: ByGeneration<nat>, infos: seq<Info>)
    requires DistinctLocations(infos)
    ensures forall x :: x in WithoutLocations(infos, Locations(GetExpiredInfos(num, infos))) <==>
      x in Within(OfGeneration(infos, x.generation), num.Get(x.generation))
  {
    var expired := GetExpiredInfos(num, infos);
    SubsequenceMembers(expired, infos);
    forall x
      ensures x in WithoutLocations(infos, Locations(expired)) <==>
        x in Within(OfGeneration(infos, x.generation), num.Get(x.generation))
    {
      var g := x.generation;
      var gs := OfGeneration(infos, g);
      DistinctLocationsOfGeneration(infos, g);
      WithinBeyondDisjoint(gs, num.Get(g), x);
      assert OfGeneration(expired, g) == Beyond(gs, num.Get(g));
      if x in infos {
        // a record's path is expired exactly when the record itself is
        assert x.location in Locations(expired) <==> x in expired by {
          if x.location in Locations(expired) {
            var y :| y in expired && y.location == x.location;
            assert y in infos;
            var i :| 0 <= i < |infos| && infos[i] == x;
            var j :| 0 <= j < |infos| && infos[j] == y;
            assert i == j;
          }
        }
        assert x in gs;
        assert x in expired <==> x in Beyond(gs, num.Get(g));
      }
    }
  }

  // ---------------------------------------------------------------------------------------
  // Folders: ensureBackupDestSubFolders

  /** `mkdir` can settle successfully for `makeIfNotExists`: something is at the path already, or its parent exists. */
  predicate Creatable(fs: FileSystem, folder: string)
    reads fs
  {
    folder in fs.dirs || folder in fs.files || fs.DirExists(Dirname(folder))
  }

  /** `makeIfNotExists`: `mkdir`, with "already exists" counted as success. */
  method MakeIfNotExists(fs: FileSystem, folder: string) returns (r: Result<string, FsError>)
    modifies fs
    ensures r.Ok? <==> old(Creatable(fs, folder))
    ensures r.Ok? ==> r.value == folder && (folder in fs.dirs || folder in fs.files)
    ensures r.Err? ==> r.error == FsError(fs.MissingCode(folder), folder)
    ensures folder in old(fs.dirs) || folder in old(fs.files) ==> fs.dirs == old(fs.dirs)
    ensures old(fs.dirs) <= fs.dirs <= old(fs.dirs) + {folder}
    ensures fs.files == old(fs.files)
  {
    r := fs.Mkdir(folder);
    if r.Err? && r.error.code == EEXIST {
      r := Ok(folder);
    }
  }

  /**
   * `ensureBackupDestSubFolders`: makes the daily, weekly and monthly folders of a destination
   * (all three are attempted; the first failure is reported). Running it when the folders are
   * there succeeds and changes nothing.
   */
  method EnsureBackupDestSubFolders(fs: FileSystem, backupDest: string) returns (r: Result<ByGeneration<string>, FsError>)
    modifies fs
    ensures var sub := BackupSubFolderPathsFromDest(backupDest);
      r.Ok? ==> r.value == sub && forall g :: sub.Get(g) in fs.dirs || sub.Get(g) in fs.files
    ensures var sub := BackupSubFolderPathsFromDest(backupDest);
      (forall g :: old(fs.DirExists(Dirname(sub.Get(g))))) ==> r.Ok?
    ensures var sub := BackupSubFolderPathsFromDest(backupDest);
      (forall g :: sub.Get(g) in old(fs.dirs) || sub.Get(g) in old(fs.files)) ==> r.Ok? && fs.dirs == old(fs.dirs)
    ensures var sub := BackupSubFolderPathsFromDest(backupDest);
      r.Err? ==> exists g :: r.error == FsError(fs.MissingCode(sub.Get(g)), sub.Get(g))
    ensures var sub := BackupSubFolderPathsFromDest(backupDest);
      old(fs.dirs) <= fs.dirs <= old(fs.dirs) + {sub.daily, sub.weekly, sub.monthly}
    ensures fs.files == old(fs.files)
  {
    var subFolders := BackupSubFolderPathsFromDest(backupDest);
    assert subFolders.daily == subFolders.Get(Daily) && subFolders.weekly == subFolders.Get(Weekly);
    assert subFolders.monthly == subFolders.Get(Monthly);
    var d := MakeIfNotExists(fs, subFolders.daily);
    var w := MakeIfNotExists(fs, subFolders.weekly);
    var m := MakeIfNotExists(fs, subFolders.monthly);
    if d.Err? {
      return Err(d.error);
    } else if w.Err? {
      return Err(w.error);
    } else if m.Err? {
      return Err(m.error);
    }
    r := Ok(ByGeneration(d.value, w.value, m.value));
  }

  // ---------------------------------------------------------------------------------------
  // The stage lists of makeDatabaseBackup and makeFilesBackup

  /** An external program of the pipeline: command, arguments, environment and working directory. */
  datatype Stage = Stage(command: string, args: seq<string>, env: map<string, string>, cwd: Option<string>)

  const DefaultEncryptionIterationCount: nat := 2000000

  /** `encryptionIterationCount || default`: a missing or zero count falls back to the default. */
  function EffectiveIterationCount(count: Option<nat>): (n: nat)
    ensures n > 0
    ensures count.Some? && count.value != 0 ==> n == count.value
    ensures count.None? || count.value == 0 ==> n == DefaultEncryptionIterationCount
  {
    match count
    case Some(c) => if c != 0 then c else DefaultEncryptionIterationCount
    case None => DefaultEncryptionIterationCount
  }

  /** The decimal spelling of a number, as it is passed on a command line. */
  function DecimalString(n: nat): (s: string)
    ensures s != [] && IsDigitString(s) && DigitsValue(s) == n
    ensures |s| > 1 ==> s[0] != '0'
  {
    if n < 10 then [DigitChar(n)]
    else
      var s := DecimalString(n / 10) + [DigitChar(n % 10)];
      assert s[..|s| - 1] == DecimalString(n / 10);
      s
  }

  /** A key is given: the source's `!key` test rejects both `null` and the empty string. */
  predicate HasKey(symmetricKey: Option<string>) {
    symmetricKey.Some? && symmetricKey.value != ""
  }

  /**
   * An `openssl enc` stage: AES-256-CBC with a PBKDF2 key whose `-iter` argument spells
   * `iterationCount`, a random salt, and `key` as the password.
   */
  predicate EncryptsWith(st: Stage, key: string, iterationCount: nat) {
    && st.command == "openssl" && |st.args| == 8
    && st.args[..4] == ["enc", "-aes-256-cbc", "-pbkdf2", "-iter"]
    && IsDigitString(st.args[4]) && DigitsValue(st.args[4]) == iterationCount
    && st.args[5..] == ["-salt", "-pass", "pass:" + key]
  }

  /** `spawnSymmetricEncrypt`: an `openssl enc` stage when a key is given. */
  function EncryptStage(symmetricKey: Option<string>, iterationCount: nat): (r: Option<Stage>)
    ensures r.Some? <==> HasKey(symmetricKey)
    ensures r.Some? ==> EncryptsWith(r.value, symmetricKey.value, iterationCount)
  {
    if !HasKey(symmetricKey) then None
    else
      Some(Stage("openssl", ["enc", "-aes-256-cbc", "-pbkdf2", "-iter", DecimalString(iterationCount), "-salt",
                             "-pass", "pass:" + symmetricKey.value], map[], None))
  }

  const GzipStage: Stage := Stage("gzip", ["-"], map[], None)

  datatype DatabaseBackupOptions = DatabaseBackupOptions(
    isMariaDb: bool, user: string, pass: string, name: string, host: string, port: string,
    fileNameFormat: string, destFolder: string, symmetricKey: Option<string>, encryptionIterationCount: Option<nat>)

  datatype FilesBackupOptions = FilesBackupOptions(
    sourceFolder: string, fileNameFormat: string, destFolder: string,
    symmetricKey: Option<string>, encryptionIterationCount: Option<nat>)

  /** The last (optional) stage of both pipelines. */
  function EncryptStages(symmetricKey: Option<string>, encryptionIterationCount: Option<nat>): (r: seq<Stage>)
    ensures |r| == if HasKey(symmetricKey) then 1 else 0
    ensures |r| == 1 ==> EncryptsWith(r[0], symmetricKey.value, EffectiveIterationCount(encryptionIterationCount))
  {
    match EncryptStage(symmetricKey, EffectiveIterationCount(encryptionIterationCount))
    case Some(e) => [e]
    case None => []
  }

  /**
   * The pipeline of `makeDatabaseBackup`: `mysqldump` (with the password in its environment,
   * and `--set-gtid-purged=OFF` only for MySQL), then `gzip`, then `openssl` only when a key is
   * given, with the default iteration count when none is.
   */
  function DatabaseStages(o: DatabaseBackupOptions): (r: seq<Stage>)
    ensures |r| == if HasKey(o.symmetricKey) then 3 else 2
    ensures |r[0].args| == (if o.isMariaDb then 8 else 9)
    ensures r[0].args[|r[0].args| - 7..] == ["-h", o.host, "-u", o.user, "-P", o.port, o.name]
    ensures r[0].command == "mysqldump" && r[0].env == map["MYSQL_PWD" := o.pass] && r[0].args[0] == "--no-tablespaces"
    ensures r[0].args[1] == "--set-gtid-purged=OFF" <==> !o.isMariaDb
    ensures r[1] == GzipStage
    ensures |r| == 3 ==> EncryptsWith(r[2], o.symmetricKey.value, EffectiveIterationCount(o.encryptionIterationCount))
  {
    var dump := Stage("mysqldump",
      ["--no-tablespaces"] + (if o.isMariaDb then [] else ["--set-gtid-purged=OFF"]) +
      ["-h", o.host, "-u", o.user, "-P", o.port, o.name],
      map["MYSQL_PWD" := o.pass], None);
    [dump, GzipStage] + EncryptStages(o.symmetricKey, o.encryptionIterationCount)
  }

  /**
   * The pipeline of `makeFilesBackup`: `tar` of the source folder's last segment, run in its
   * parent so that the archive does not hold the full path, then `gzip`, then `openssl` only
   * when a key is given.
   */
  function FilesStages(o: FilesBackupOptions): (r: seq<Stage>)
    ensures |r| == if HasKey(o.symmetricKey) then 3 else 2
    ensures r[0].command == "tar" && |r[0].args| == 4 && r[0].args[..3] == ["--warning=no-file-changed", "-cf", "-"]
    ensures r[0].args[3] == Basename(DropTrailingSlash(o.sourceFolder)) && HasNoSlash(r[0].args[3])
    ensures r[0].cwd == Some(PathJoin(o.sourceFolder, ".."))
    ensures r[1] == GzipStage
    ensures |r| == 3 ==> EncryptsWith(r[2], o.symmetricKey.value, EffectiveIterationCount(o.encryptionIterationCount))
  {
    var sourceFolderRelative := Basename(DropTrailingSlash(o.sourceFolder));
    var tar := Stage("tar", ["--warning=no-file-changed", "-cf", "-", sourceFolderRelative], map[],
                     Some(PathJoin(o.sourceFolder, "..")));
    [tar, GzipStage] + EncryptStages(o.symmetricKey, o.encryptionIterationCount)
  }

  /**
   * For a source folder `<parent>/<segment>` (with or without a trailing `/`), `tar` archives
   * exactly `<segment>` and runs in `<parent>/<segment>/..`, the folder whose path is `<parent>`:
   * the archive holds the folder under its own name and nothing of the path above it.
   */
  lemma FilesStagesArchiveLastSegment(o: FilesBackupOptions, parent: string, segment: string)
    requires DropTrailingSlash(parent) != "" && segment != "" && HasNoSlash(segment)
    requires o.sourceFolder == PathJoin(parent, segment) || o.sourceFolder == PathJoin(parent, segment) + "/"
    ensures FilesStages(o)[0].args[3] == segment
    ensures FilesStages(o)[0].cwd == Some(PathJoin(parent, segment) + "/..")
    ensures Dirname(PathJoin(parent, segment)) == DropTrailingSlash(parent)
  {
    var folder := PathJoin(parent, segment);
    PathJoinSplits(parent, segment);
    assert folder[|folder| - 1] == segment[|segment| - 1];
    assert DropTrailingSlash(o.sourceFolder) == folder;
    assert DropLeadingSlash("..") == "..";
    assert PathJoin(o.sourceFolder, "..") == folder + "/..";
  }

  // ---------------------------------------------------------------------------------------
  // Capturing the pipeline's output, and the cleanup after a failure

  /**
   * How the pipeline settles: its whole output, or an error, with whether the destination
   * file had already been created.
   */
  datatype PipelineOutcome = Completed(content: seq<bv8>) | Failed(message: string, destinationOpened: bool)

  /** The file a backup of `today` is written to. */
  function DestFileName(destFolder: string, fileNameFormat: string, today: CalendarDate): string
  {
    PathJoin(destFolder, NameFormatToFileName(fileNameFormat, today))
  }

  /**
   * The end of `makeDatabaseBackup` and `makeFilesBackup`: on success the destination file
   * holds the output and its path is returned; on failure it is unlinked, a second time when
   * the first attempt fails, and the pipeline's error is returned whatever the unlinks did.
   * The write stream cannot open over a directory or in a folder that does not exist; the
   * source has no handler for that, so there is no cleanup and the model reports the code.
   */
  method CaptureBackup(fs: FileSystem, today: CalendarDate, fileNameFormat: string, destFolder: string, outcome: PipelineOutcome)
    returns (r: Result<string, string>, unlinkAttempts: nat)
    modifies fs
    ensures var dest := DestFileName(destFolder, fileNameFormat, today);
      r.Ok? <==> outcome.Completed? && dest !in old(fs.dirs) && old(fs.DirExists(Dirname(dest)))
    ensures var dest := DestFileName(destFolder, fileNameFormat, today);
      r.Ok? ==> r.value == dest && fs.files == old(fs.files)[dest := outcome.content] && unlinkAttempts == 0
    ensures var dest := DestFileName(destFolder, fileNameFormat, today);
      dest in old(fs.dirs) ==> r == Err(EISDIR) && fs.files == old(fs.files) && unlinkAttempts == 0
    ensures var dest := DestFileName(destFolder, fileNameFormat, today);
      dest !in old(fs.dirs) && !old(fs.DirExists(Dirname(dest))) ==>
        r == Err(old(fs.MissingCode(dest))) && fs.files == old(fs.files) && unlinkAttempts == 0
    ensures var dest := DestFileName(destFolder, fileNameFormat, today);
      dest !in old(fs.dirs) && old(fs.DirExists(Dirname(dest))) && r.Err? ==>
        && outcome.Failed? && r.error == outcome.message
        && fs.files == old(fs.files) - {dest} && 1 <= unlinkAttempts <= 2
        && (unlinkAttempts == 2 <==> dest !in old(fs.files) && !outcome.destinationOpened)
    ensures fs.dirs == old(fs.dirs)
    ensures old(fs.Valid()) ==> fs.Valid()
  {
    var destFilename := DestFileName(destFolder, fileNameFormat, today);
    if destFilename in fs.dirs {
      return Err(EISDIR), 0;
    } else if !fs.DirExists(Dirname(destFilename)) {
      return Err(fs.MissingCode(destFilename)), 0;
    } else if outcome.Completed? {
      fs.WriteFile(destFilename, outcome.content);
      return Ok(destFilename), 0;
    }
    if outcome.destinationOpened {
      fs.WriteFile(destFilename, []);
    }
    unlinkAttempts := 1;
    var u := fs.Unlink(destFilename);
    if u.Err? {
      unlinkAttempts := 2;
      u := fs.Unlink(destFilename);
    }
    r := Err(outcome.message);
  }

  /** A generated name has no `/` when its template has none. */
  lemma GeneratedNameHasNoSlash(fileNameFormat: string, today: CalendarDate)
    requires Find(fileNameFormat, DateToken).Some? && HasNoSlash(fileNameFormat)
    ensures HasNoSlash(NameFormatToFileName(fileNameFormat, today))
  {
    var name := NameFormatToFileName(fileNameFormat, today);
    var i := Find(fileNameFormat, DateToken).value;
    forall k | 0 <= k < |name|
      ensures name[k] != '/'
    {
      if k < i {
        assert name[k] == fileNameFormat[k];
      } else if k < i + 8 {
        assert name[k] == DateDigits(today)[k - i];
      } else {
        assert name[k] == fileNameFormat[k - 2];
      }
    }
  }

  /**
   * A captured backup is found by the next scan of the daily folder as a daily record dated
   * today, so no further backup is due today.
   */
  lemma CapturedBackupIsScanned(fs: FileSystem, fileNameFormat: string, dests: ByGeneration<string>, today: CalendarDate,
                                infos: seq<Info>)
    requires Find(fileNameFormat, DateToken).Some? && HasNoSlash(fileNameFormat)
    requires dests.daily != "" && DropTrailingSlash(dests.daily) == dests.daily
    requires DestFileName(dests.daily, fileNameFormat, today) in fs.files
    requires SortedNewestFirst(infos) && forall x :: x in infos <==> Scanned(fs, fileNameFormat, dests, x)
    ensures var name := NameFormatToFileName(fileNameFormat, today);
      Scanned(fs, fileNameFormat, dests, Info(name, DestFileName(dests.daily, fileNameFormat, today), dests.daily, today, Daily))
    ensures !ShouldMakeBackup(today, infos)
  {
    var name := NameFormatToFileName(fileNameFormat, today);
    var dest := DestFileName(dests.daily, fileNameFormat, today);
    GeneratedNameHasNoSlash(fileNameFormat, today);
    FileInfoRoundTrip(Daily, fileNameFormat, dests.daily, today);
    GeneratedNameMatches(fileNameFormat, today);
    assert name != [] by {
      assert |name| == |fileNameFormat| + 2;
    }
    PathJoinSplits(dests.daily, name);
    assert DropLeadingSlash(name) == name;
    assert dest == dests.daily + "/" + name;
    assert name in fs.Entries(dests.daily) by {
      assert dest in fs.files.Keys && Dirname(dest) == dests.daily && Basename(dest) == name;
    }
    var x := Info(name, dest, dests.daily, today, Daily);
    assert Scanned(fs, fileNameFormat, dests, x);
    NoBackupDueAfterCapture(today, infos, x);
  }
}
