/** Picking the latest metrics snapshot and recounting its repositories (src/metrics.ts). */
module Metrics {
  import opened Common
  import opened Orders
  import opened JsText

  // ---------------------------------------------------------------- the latest file

  /** What `stat` answers: a modification time in milliseconds, or a rejection. */
  datatype Stat = Modified(time: int) | Gone | Unreadable

  datatype Latest = NoMetrics | Chosen(file: JsString) | Failed

  const JSON_SUFFIX: JsString := [0x2E, 0x6A, 0x73, 0x6F, 0x6E]
  const HYPHEN: CodeUnit := 0x2D

  predicate IsJson(f: JsString) {
    |f| >= 5 && f[|f| - 5..] == JSON_SUFFIX
  }

  /** `/^(\d{4}-\d{2}-\d{2})\.json$/` */
  predicate IsDated(f: JsString) {
    && |f| == 15 && f[10..] == JSON_SUFFIX && f[4] == HYPHEN && f[7] == HYPHEN
    && IsDigits(f[..4]) && IsDigits(f[5..7]) && IsDigits(f[8..10])
  }

  function DateOf(f: JsString): JsString
    requires IsDated(f)
  {
    f[..10]
  }

  function JsonFiles(files: seq<JsString>): (r: seq<JsString>)
    ensures forall f :: f in r <==> f in files && IsJson(f)
  {
    if files == [] then []
    else
      assert files == [files[0]] + files[1..];
      if IsJson(files[0]) then [files[0]] + JsonFiles(files[1..]) else JsonFiles(files[1..])
  }

  function Dates(files: seq<JsString>): (r: seq<JsString>)
    ensures forall f :: f in files && IsDated(f) ==> DateOf(f) in r
    ensures forall d :: d in r ==> d + JSON_SUFFIX in files && IsDated(d + JSON_SUFFIX)
  {
    if files == [] then []
    else
      assert files == [files[0]] + files[1..];
      if IsDated(files[0]) then
        assert files[0] == DateOf(files[0]) + JSON_SUFFIX;
        [DateOf(files[0])] + Dates(files[1..])
      else Dates(files[1..])
  }

  /** Descending order, as the comparator of `datedFiles.sort` has it. */
  predicate LaterFirst(a: JsString, b: JsString) { JsLess(b, a) }

  /** `f` was modified before `g`, or at the same time and sorts before it. */
  predicate Older(stats: map<JsString, Stat>, f: JsString, g: JsString)
    requires f in stats && g in stats && stats[f].Modified? && stats[g].Modified?
  {
    stats[f].time < stats[g].time || (stats[f].time == stats[g].time && JsLess(f, g))
  }

  /** The file vanished after the directory was listed: `ENOENT`. */
  predicate IsGone(stats: map<JsString, Stat>, f: JsString) {
    f !in stats || stats[f].Gone?
  }

  predicate RejectedAs(stats: map<JsString, Stat>, f: JsString, answer: Stat) {
    if IsGone(stats, f) then answer == Gone else !stats[f].Modified? && answer == stats[f]
  }

  predicate AllModified(stats: map<JsString, Stat>, files: seq<JsString>) {
    forall i :: 0 <= i < |files| ==> files[i] in stats && stats[files[i]].Modified?
  }

  /** The maximum by (modification time, name). */
  predicate IsNewest(stats: map<JsString, Stat>, files: seq<JsString>, f: JsString)
    requires AllModified(stats, files)
  {
    f in files && forall i :: 0 <= i < |files| ==> files[i] == f || Older(stats, files[i], f)
  }

  lemma NewestIsUnique(stats: map<JsString, Stat>, files: seq<JsString>, f: JsString, g: JsString)
    requires AllModified(stats, files) && IsNewest(stats, files, f) && IsNewest(stats, files, g)
    ensures f == g
  {
    JsOrderTotal();
    var i :| 0 <= i < |files| && files[i] == f;
    var j :| 0 <= j < |files| && files[j] == g;
  }

  /** The directory order does not matter. */
  lemma NewestForgetsOrder(stats: map<JsString, Stat>, a: seq<JsString>, b: seq<JsString>, f: JsString, g: JsString)
    requires AllModified(stats, a) && AllModified(stats, b) && forall x :: x in a <==> x in b
    requires IsNewest(stats, a, f) && IsNewest(stats, b, g)
    ensures f == g
  {
    forall i | 0 <= i < |a|
      ensures a[i] == g || Older(stats, a[i], g)
    {
      assert a[i] in b;
      var j :| 0 <= j < |b| && b[j] == a[i];
    }
    NewestIsUnique(stats, a, f, g);
  }

  /** One batch: every file is stated; a rejection ends the scan. */
  method ScanBatch(stats: map<JsString, Stat>, batch: seq<JsString>, ghost before: seq<JsString>,
                   latest0: Option<JsString>)
    returns (latest: Option<JsString>)
    requires AllModified(stats, before + batch)
    requires latest0.None? <==> before == []
    requires latest0.Some? ==> AllModified(stats, before) && IsNewest(stats, before, latest0.value)
    ensures latest.None? <==> before + batch == []
    ensures latest.Some? ==> IsNewest(stats, before + batch, latest.value)
  {
    JsOrderTotal();
    latest := latest0;
    for i := 0 to |batch|
      invariant AllModified(stats, before + batch[..i])
      invariant latest.None? <==> before + batch[..i] == []
      invariant latest.Some? ==> IsNewest(stats, before + batch[..i], latest.value)
    {
      var entry := batch[i];
      ghost var seen, more := before + batch[..i], before + batch[..i + 1];
      assert more == seen + [entry];
      assert (before + batch)[|before| + i] == entry;
      if latest.None? {
        latest := Some(entry);
        assert more[0] == entry;
        continue;
      }
      assert latest.value in more;
      assert more[|seen|] == entry;
      if stats[entry].time > stats[latest.value].time {
        latest := Some(entry);
      } else if stats[entry].time == stats[latest.value].time {
        if JsLess(latest.value, entry) {
          latest := Some(entry);
        }
      }
    }
    assert batch[..|batch|] == batch;
  }

  /** The scan in batches of at most `size` concurrent calls. */
  method ScanInBatches(stats: map<JsString, Stat>, files: seq<JsString>, size: nat) returns (r: Latest)
    requires size > 0 && files != []
    ensures AllModified(stats, files) ==> r.Chosen? && IsNewest(stats, files, r.file)
    ensures !AllModified(stats, files) ==> !r.Chosen?
    ensures r.NoMetrics? ==> exists f :: f in files && IsGone(stats, f)
    ensures r.Failed? ==> exists f :: f in files && !IsGone(stats, f) && !stats[f].Modified?
  {
    var latest: Option<JsString> := None;
    var i := 0;
    while i < |files|
      invariant 0 <= i <= |files|
      invariant AllModified(stats, files[..i])
      invariant latest.None? <==> i == 0
      invariant latest.Some? ==> IsNewest(stats, files[..i], latest.value)
    {
      var next := if i + size < |files| then i + size else |files|;
      var batch := files[i..next];
      assert files[..next] == files[..i] + batch;
      var rejected := Rejection(stats, batch);
      if rejected.Some? {
        assert !AllModified(stats, files);
        assert forall f :: f in batch ==> f in files;
        return if rejected.value.Gone? then NoMetrics else Failed;
      }
      latest := ScanBatch(stats, batch, files[..i], latest);
      i := next;
    }
    assert files[..|files|] == files;
    return Chosen(latest.value);
  }

  /** The first file of a batch that cannot be stated. */
  method Rejection(stats: map<JsString, Stat>, batch: seq<JsString>) returns (r: Option<Stat>)
    ensures r.None? <==> AllModified(stats, batch)
    ensures r.Some? ==> exists f :: f in batch && RejectedAs(stats, f, r.value)
  {
    for i := 0 to |batch|
      invariant AllModified(stats, batch[..i])
    {
      assert batch[i] in batch;
      if batch[i] !in stats {
        return Some(Gone);
      }
      if !stats[batch[i]].Modified? {
        return Some(stats[batch[i]]);
      }
      assert batch[..i + 1] == batch[..i] + [batch[i]];
    }
    assert batch[..|batch|] == batch;
    return None;
  }

  const MAX_CONCURRENT_STATS: nat := 10

  /** What `readdir` answers. */
  datatype Listing = Listed(files: seq<JsString>) | NoDirectory | Unlistable

  /** `loadLatestMetrics`, up to loading the file it picks. */
  method LoadLatest(listing: Listing, stats: map<JsString, Stat>) returns (r: Latest)
    ensures listing.NoDirectory? ==> r.NoMetrics?
    ensures listing.Unlistable? ==> r.Failed?
    ensures listing.Listed? && (exists f :: f in listing.files && IsDated(f)) ==>
      && r.Chosen? && r.file in listing.files && IsDated(r.file)
      && forall f :: f in listing.files && IsDated(f) ==> f == r.file || JsLess(DateOf(f), DateOf(r.file))
    ensures listing.Listed? && r.NoMetrics? ==>
      JsonFiles(listing.files) == [] || exists f :: f in listing.files && IsJson(f) && IsGone(stats, f)
    ensures listing.Listed? && r.Failed? ==>
      exists f :: f in listing.files && IsJson(f) && !IsGone(stats, f) && !stats[f].Modified?
  {
    if listing.NoDirectory? {
      return NoMetrics;
    }
    if listing.Unlistable? {
      return Failed;
    }
    assert forall f :: f in listing.files && IsDated(f) ==> f in JsonFiles(listing.files);
    r := PickLatest(listing.files, stats);
  }

  /** The same, from the listed files on. */
  method PickLatest(files: seq<JsString>, stats: map<JsString, Stat>) returns (r: Latest)
    ensures JsonFiles(files) == [] ==> r.NoMetrics?
    ensures (exists f :: f in JsonFiles(files) && IsDated(f)) ==>
      && r.Chosen? && r.file in files && IsDated(r.file)
      && forall f :: f in JsonFiles(files) && IsDated(f) ==> f == r.file || JsLess(DateOf(f), DateOf(r.file))
    ensures JsonFiles(files) != [] && (forall f :: f in JsonFiles(files) ==> !IsDated(f)) ==>
      && (AllModified(stats, JsonFiles(files)) ==> r.Chosen? && IsNewest(stats, JsonFiles(files), r.file))
      && (!AllModified(stats, JsonFiles(files)) ==> !r.Chosen?)
    ensures r.NoMetrics? ==> JsonFiles(files) == [] || exists f :: f in JsonFiles(files) && IsGone(stats, f)
    ensures r.Failed? ==> exists f :: f in JsonFiles(files) && !IsGone(stats, f) && !stats[f].Modified?
  {
    var jsonFiles := JsonFiles(files);
    if jsonFiles == [] {
      return NoMetrics;
    }
    var dates := Dates(jsonFiles);
    if dates != [] {
      assert dates[0] in dates;
      r := PickDated(jsonFiles, dates);
      return;
    }
    r := ScanInBatches(stats, jsonFiles, MAX_CONCURRENT_STATS);
  }

  /** The first of the dated files in descending order. */
  method PickDated(files: seq<JsString>, dates: seq<JsString>) returns (r: Latest)
    requires dates == Dates(files) && dates != []
    ensures r.Chosen? && r.file in files && IsDated(r.file)
    ensures forall f :: f in files && IsDated(f) ==> f == r.file || JsLess(DateOf(f), DateOf(r.file))
  {
    var sorted := Sort(LaterFirst, dates);
    JsOrderTotal();
    assert Total(LaterFirst);
    assert dates[0] in sorted;
    var first := sorted[0];
    assert first in dates;
    r := Chosen(first + JSON_SUFFIX);
    assert DateOf(r.file) == first;
    forall f | f in files && IsDated(f)
      ensures f == r.file || JsLess(DateOf(f), DateOf(r.file))
    {
      var d := DateOf(f);
      assert d in sorted && f == d + JSON_SUFFIX;
      var i :| 0 <= i < |sorted| && sorted[i] == d;
    }
  }

  // ---------------------------------------------------------------- recounting

  const MISSING_PROFILE: string := "missing .wgx/profile.yml"

  datatype Repo = Repo(issues: Option<seq<string>>, status: Option<string>,
                       profileExpected: Option<bool>, configExpected: Option<bool>)

  function Without(issues: seq<string>, issue: string): (r: seq<string>)
    ensures forall x :: x in r <==> x in issues && x != issue
  {
    if issues == [] then []
    else
      assert issues == [issues[0]] + issues[1..];
      if issues[0] == issue then Without(issues[1..], issue) else [issues[0]] + Without(issues[1..], issue)
  }

  predicate ProfileExpected(r: Repo) {
    if r.profileExpected.Some? then r.profileExpected.value
    else if r.configExpected.Some? then r.configExpected.value
    else true
  }

  /** `processRepoStatus`: an issue that is not expected to be fixed is dropped, and a
      repository left without issues is ok. */
  function ProcessRepo(r: Repo): Repo {
    var issues := if r.issues.Some? then r.issues.value else [];
    if MISSING_PROFILE in issues && !ProfileExpected(r) then
      var left := Without(issues, MISSING_PROFILE);
      r.(issues := Some(left), status := if left == [] then Some("ok") else r.status)
    else r
  }

  /** Processing again changes nothing, and other issues are never lost. */
  lemma ProcessingSettles(r: Repo)
    ensures ProcessRepo(ProcessRepo(r)) == ProcessRepo(r)
    ensures r.issues.Some? ==> forall x :: x in r.issues.value && x != MISSING_PROFILE ==>
      ProcessRepo(r).issues.Some? && x in ProcessRepo(r).issues.value
    ensures ProcessRepo(r).status != r.status ==>
      ProcessRepo(r).status == Some("ok") && ProcessRepo(r).issues == Some([])
  {
  }

  /** The suppressed issue goes exactly if the profile is not expected: the repository's context
      decides, then its configuration; without either the profile is expected. */
  lemma ProcessingMeans(r: Repo)
    ensures (r.profileExpected == Some(true) || (r.profileExpected.None? && r.configExpected != Some(false))) ==>
      ProcessRepo(r) == r
    ensures (r.profileExpected == Some(false) || (r.profileExpected.None? && r.configExpected == Some(false))) ==>
      var p := ProcessRepo(r);
      && (r.issues.None? ==> p == r)
      && (r.issues.Some? ==>
           && p.issues.Some?
           && (forall x :: x in p.issues.value <==> x in r.issues.value && x != "missing .wgx/profile.yml")
           && p.status == if r.issues.value != [] && p.issues.value == [] then Some("ok") else r.status)
  {
    if r.issues.Some? && MISSING_PROFILE !in r.issues.value {
      assert forall x :: x in r.issues.value ==> x != MISSING_PROFILE;
    }
  }

  datatype Bucket = IsOk | IsWarn | IsFail | IsUnknown

  function BucketOf(r: Repo): Bucket {
    if r.status == Some("ok") then IsOk
    else if r.status == Some("warn") then IsWarn
    else if r.status == Some("fail") then IsFail
    else IsUnknown
  }

  function Processed(repos: seq<Repo>): (r: seq<Repo>)
    ensures |r| == |repos| && forall i :: 0 <= i < |repos| ==> r[i] == ProcessRepo(repos[i])
  {
    seq(|repos|, i requires 0 <= i < |repos| => ProcessRepo(repos[i]))
  }

  function Count(repos: seq<Repo>, b: Bucket): (n: nat)
    ensures n <= |repos|
  {
    if repos == [] then 0
    else Count(repos[..|repos| - 1], b) + if BucketOf(repos[|repos| - 1]) == b then 1 else 0
  }

  lemma {:induction false} CountsCoverAll(repos: seq<Repo>)
    ensures Count(repos, IsOk) + Count(repos, IsWarn) + Count(repos, IsFail) + Count(repos, IsUnknown) == |repos|
  {
    if repos != [] { CountsCoverAll(repos[..|repos| - 1]); }
  }

  /** The repositories with this status. */
  function CountStatus(repos: seq<Repo>, status: string): nat {
    if repos == [] then 0
    else CountStatus(repos[..|repos| - 1], status) + if repos[|repos| - 1].status == Some(status) then 1 else 0
  }

  /** Each bucket but the last is one status text; the last is everything else. */
  lemma {:induction false} BucketsMean(repos: seq<Repo>)
    ensures Count(repos, IsOk) == CountStatus(repos, "ok")
    ensures Count(repos, IsWarn) == CountStatus(repos, "warn")
    ensures Count(repos, IsFail) == CountStatus(repos, "fail")
    ensures Count(repos, IsUnknown)
      == |repos| - CountStatus(repos, "ok") - CountStatus(repos, "warn") - CountStatus(repos, "fail")
  {
    if repos != [] { BucketsMean(repos[..|repos| - 1]); }
  }

  datatype RepoStatus = RepoStatus(ok: int, warn: int, fail: int)

  /** `repos` of the file: absent, a list of objects, or a list whose first element is none. */
  datatype Repos = NoRepos | Objects(repos: seq<Repo>) | NotObjects(length: nat)

  datatype MetaFields = MetaFields(unknownCount: Option<int>, rest: map<string, string>)

  datatype RawMetrics = RawMetrics(
    repoCount: Option<int>, repos: Repos, status: Option<RepoStatus>,
    ok: Option<int>, warn: Option<int>, fail: Option<int>, metadata: Option<MetaFields>)

  datatype Snapshot = Snapshot(repoCount: int, status: RepoStatus, metadata: Option<MetaFields>, repos: Repos)

  function Or(n: Option<int>, default: int): int { if n.Some? then n.value else default }

  function Length(r: Repos): nat {
    match r
    case NoRepos => 0
    case Objects(repos) => |repos|
    case NotObjects(n) => n
  }

  /** The counting loop of `loadMetricsSnapshot`. */
  method Recount(repos: seq<Repo>) returns (status: RepoStatus, unknown: nat, processed: seq<Repo>)
    ensures processed == Processed(repos)
    ensures status == RepoStatus(Count(processed, IsOk), Count(processed, IsWarn), Count(processed, IsFail))
    ensures unknown == Count(processed, IsUnknown)
    ensures status.ok == CountStatus(processed, "ok") && status.warn == CountStatus(processed, "warn")
    ensures status.fail == CountStatus(processed, "fail")
    ensures unknown == |repos| - status.ok - status.warn - status.fail
  {
    var ok, warn, fail := 0, 0, 0;
    unknown, processed := 0, [];
    for i := 0 to |repos|
      invariant processed == Processed(repos[..i])
      invariant ok == Count(processed, IsOk) && warn == Count(processed, IsWarn) && fail == Count(processed, IsFail)
      invariant unknown == Count(processed, IsUnknown)
    {
      var repo := ProcessRepo(repos[i]);
      match BucketOf(repo) {
        case IsOk => ok := ok + 1;
        case IsWarn => warn := warn + 1;
        case IsFail => fail := fail + 1;
        case IsUnknown => unknown := unknown + 1;
      }
      assert (processed + [repo])[..|processed|] == processed;
      processed := processed + [repo];
    }
    assert repos[..|repos|] == repos;
    BucketsMean(processed);
    status := RepoStatus(ok, warn, fail);
  }

  /** `loadMetricsSnapshot`, from the parsed file on; the timestamp is left out. */
  method BuildSnapshot(data: RawMetrics) returns (s: Snapshot)
    ensures IsSnapshot(data, s)
    ensures data.repos.Objects? && data.repos.repos != [] ==>
      var counted := Processed(data.repos.repos);
      && s.repos == Objects(counted) && s.status.ok == CountStatus(counted, "ok")
      && s.status.warn == CountStatus(counted, "warn") && s.status.fail == CountStatus(counted, "fail")
      && (s.status.ok + s.status.warn + s.status.fail < |counted| ==>
           ReportedUnknown(s) == |counted| - s.status.ok - s.status.warn - s.status.fail)
    ensures data.repos.Objects? && data.repos.repos != [] ==>
      (AddsUp(s) <==> Count(Processed(data.repos.repos), IsUnknown) > 0 || StaleUnknown(data) == 0)
  {
    var status := if data.status.Some? then data.status.value
                  else RepoStatus(Or(data.ok, 0), Or(data.warn, 0), Or(data.fail, 0));
    var repos, unknown := data.repos, 0;
    if data.repos.Objects? && |data.repos.repos| > 0 {
      var counted, u, processed := Recount(data.repos.repos);
      unknown, repos := u, Objects(processed);
      CountsCoverAll(processed);
      if counted.ok + counted.warn + counted.fail + unknown > 0 {
        status := counted;
      }
    }
    var metadata := if data.metadata.Some? then data.metadata.value else MetaFields(None, map[]);
    if unknown > 0 {
      metadata := metadata.(unknownCount := Some(unknown));
    }
    s := Snapshot(Or(data.repoCount, Length(data.repos)), status,
                  if metadata == MetaFields(None, map[]) then None else Some(metadata), repos);
    if data.repos.Objects? { BucketsMean(Processed(data.repos.repos)); }
    if data.repos.Objects? { CountsAddUp(data.repos.repos, StaleUnknown(data)); }
  }

  /** What `loadMetricsSnapshot` makes of a file. */
  ghost predicate IsSnapshot(data: RawMetrics, s: Snapshot) {
    var counted := if data.repos.Objects? then Processed(data.repos.repos) else [];
    var unknown := Count(counted, IsUnknown);
    && s.repoCount == Or(data.repoCount, Length(data.repos))
    && (counted != [] ==>
         && s.repos == Objects(counted)
         && s.status == RepoStatus(Count(counted, IsOk), Count(counted, IsWarn), Count(counted, IsFail)))
    && (counted == [] ==>
         && s.repos == data.repos
         && s.status == if data.status.Some? then data.status.value
                        else RepoStatus(Or(data.ok, 0), Or(data.warn, 0), Or(data.fail, 0)))
    && ReportedUnknown(s) == if unknown > 0 then unknown else StaleUnknown(data)
  }

  /** The reported counts add up to the number of repositories. */
  predicate AddsUp(s: Snapshot) {
    s.status.ok + s.status.warn + s.status.fail + ReportedUnknown(s) == Length(s.repos)
  }

  function ReportedUnknown(s: Snapshot): int {
    if s.metadata.Some? then Or(s.metadata.value.unknownCount, 0) else 0
  }

  /** An `unknown_count` the file brought along. */
  function StaleUnknown(data: RawMetrics): int {
    if data.metadata.Some? then Or(data.metadata.value.unknownCount, 0) else 0
  }

  /** The reported counts add up to the repositories exactly when some repository is unknown
      or the file brings no `unknown_count` of its own: a stale one is never cleared. */
  lemma CountsAddUp(repos: seq<Repo>, stale: int)
    ensures var counted := Processed(repos);
      var unknown := Count(counted, IsUnknown);
      var reported := if unknown > 0 then unknown else stale;
      (Count(counted, IsOk) + Count(counted, IsWarn) + Count(counted, IsFail) + reported == |repos|)
      <==> (unknown > 0 || stale == 0)
  {
    CountsCoverAll(Processed(repos));
  }

  /** One repository that is ok, and a count of one unknown from an earlier time: the
      snapshot reports two for one. */
  lemma StaleCountSpoils(data: RawMetrics, s: Snapshot)
    requires var stale := Some(MetaFields(Some(1), map[]));
      var repos := Objects([Repo(None, Some("ok"), None, None)]);
      && data == RawMetrics(None, repos, None, None, None, None, stale)
      && s == Snapshot(1, RepoStatus(1, 0, 0), stale, repos)
    ensures IsSnapshot(data, s) && !AddsUp(s)
  {
    var counted := Processed(data.repos.repos);
    assert counted == data.repos.repos && counted[..0] == [];
    CountsCoverAll(counted);
  }
}
