/** `cleanup_google_drive_backups` as the script runs it, loop by loop: it
    parses the listing into `backups_by_time`, sorts it newest first, adds
    the hourly ids to `files_to_keep`, gathers each bucketed tier into a
    dictionary of lists and keeps the first entry of every list, collects
    `files_to_delete` and issues one delete request per entry. Each loop is
    proved to compute the matching part of `Retention.Classify`, so the
    whole run computes exactly `Classify`, and everything proved in
    RetentionProperties holds of it. The Drive service is a parameter: the
    set of ids whose delete request fails with an `HttpError`. */
module DriveCleanup {
  import opened Optional
  import opened Sequences
  import opened BackupName
  import opened Retention

  /** The parse of a listing whose first entries gave `acc`. */
  function Resume(acc: seq<Backup>, r: Parsing): Parsing
  {
    match r
    case ParseFailed(n) => r
    case ParsedAll(bs) => ParsedAll(acc + bs)
  }

  lemma {:induction false} ParseListingFrom(files: seq<DriveFile>, i: nat)
    requires i < |files|
    ensures ParseListing(files[i..]) ==
      match ParseBackupTimestamp(files[i].name)
      case BadDate => ParseFailed(files[i].name)
      case NoMatch => ParseListing(files[i + 1..])
      case Parsed(t) => Resume([Backup(files[i].id, files[i].name, t)], ParseListing(files[i + 1..]))
  {
    assert files[i..][0] == files[i] && files[i..][1..] == files[i + 1..];
  }

  lemma {:induction false} ResumeAppend(acc: seq<Backup>, b: Backup, r: Parsing)
    ensures Resume(acc, Resume([b], r)) == Resume(acc + [b], r)
  {
    if r.ParsedAll? {
      assert acc + ([b] + r.backups) == (acc + [b]) + r.backups;
    }
  }

  /** The parse loop: one `parse_backup_timestamp` per listed entry; a name
      whose digits `strptime` rejects raises, which ends the cleanup. */
  method ParseFiles(files: seq<DriveFile>) returns (r: Parsing)
    ensures r == ParseListing(files)
  {
    var backups: seq<Backup> := [];
    var i := 0;
    assert files[0..] == files;
    while i < |files|
      invariant 0 <= i <= |files|
      invariant ParseListing(files) == Resume(backups, ParseListing(files[i..]))
    {
      var f := files[i];
      ParseListingFrom(files, i);
      match ParseBackupTimestamp(f.name) {
        case BadDate =>
          return ParseFailed(f.name);
        case NoMatch =>
        case Parsed(t) =>
          var b := Backup(f.id, f.name, t);
          ResumeAppend(backups, b, ParseListing(files[i + 1..]));
          backups := backups + [b];
      }
      i := i + 1;
    }
    assert files[i..] == [];
    assert backups + [] == backups;
    return ParsedAll(backups);
  }

  lemma {:induction false} IdsOfPrefix(s: seq<Backup>, j: nat)
    requires j < |s|
    ensures Ids(s[..j + 1]) == Ids(s[..j]) + {s[j].id}
  {
    assert s[..j + 1] == s[..j] + [s[j]];
    forall id | id in Ids(s[..j + 1]) ensures id in Ids(s[..j]) + {s[j].id} {
      var b :| b in s[..j + 1] && b.id == id;
      if b != s[j] {
        assert b in s[..j];
      }
    }
    forall id | id in Ids(s[..j]) ensures id in Ids(s[..j + 1]) {
      var b :| b in s[..j] && b.id == id;
      assert b in s[..j + 1];
    }
    assert s[j] in s[..j + 1];
  }

  lemma {:induction false} HourlyIds(s: seq<Backup>, c: Cutoffs)
    ensures Ids(Filter(s, (b: Backup) => IsHourly(c, b))) == HourlyKept(s, c)
  {
    var h := Filter(s, (b: Backup) => IsHourly(c, b));
    FilterMembers(s, (b: Backup) => IsHourly(c, b));
    forall id | id in Ids(h) ensures id in HourlyKept(s, c) {
      var b :| b in h && b.id == id;
      var i :| 0 <= i < |h| && h[i] == b;
    }
    forall id | id in HourlyKept(s, c) ensures id in Ids(h) {
      var b :| b in s && IsHourly(c, b) && b.id == id;
      var i :| 0 <= i < |s| && s[i] == b;
      assert b in h;
    }
  }

  /** Category 1: every backup at or after the hourly cutoff is kept. */
  method KeepHourly(sorted: seq<Backup>, c: Cutoffs) returns (keep: set<string>)
    ensures keep == HourlyKept(sorted, c)
  {
    var hourly := Filter(sorted, (b: Backup) => IsHourly(c, b));
    keep := {};
    var j := 0;
    while j < |hourly|
      invariant 0 <= j <= |hourly|
      invariant keep == Ids(hourly[..j])
    {
      IdsOfPrefix(hourly, j);
      keep := keep + {hourly[j].id};
      j := j + 1;
    }
    assert hourly[..j] == hourly;
    HourlyIds(sorted, c);
  }

  /** The dictionary of lists after the grouping loop of a tier: the lists
      are the non-empty buckets, each in newest-first order. */
  ghost predicate Grouped(buckets: map<BucketKey, seq<Backup>>, s: seq<Backup>, c: Cutoffs, tier: Tier)
  {
    (forall k :: k in buckets <==> Filter(s, InBucket(c, tier, k)) != []) &&
    (forall k :: k in buckets ==> buckets[k] == Filter(s, InBucket(c, tier, k)))
  }

  /** One iteration of the grouping loop: `by_key[key].append(backup)`
      when the backup lies in the tier's band. */
  function AddToGroup(buckets: map<BucketKey, seq<Backup>>, c: Cutoffs, tier: Tier, b: Backup): map<BucketKey, seq<Backup>>
  {
    var k := KeyOf(tier, b);
    var group := if k in buckets then buckets[k] else [];
    if InBand(c, tier, b) then buckets[k := group + [b]] else buckets
  }

  /** The dictionary the grouping loop builds from `s`. */
  function Groups(s: seq<Backup>, c: Cutoffs, tier: Tier): map<BucketKey, seq<Backup>>
  {
    if s == [] then map[] else AddToGroup(Groups(s[..|s| - 1], c, tier), c, tier, s[|s| - 1])
  }

  /** The grouping loop of a tier, over the sorted backups. */
  method GroupByKey(sorted: seq<Backup>, c: Cutoffs, tier: Tier) returns (buckets: map<BucketKey, seq<Backup>>)
    ensures Grouped(buckets, sorted, c, tier)
  {
    buckets := map[];
    var i := 0;
    while i < |sorted|
      invariant 0 <= i <= |sorted|
      invariant buckets == Groups(sorted[..i], c, tier)
    {
      var b := sorted[i];
      GroupsSnoc(sorted, i, c, tier);
      var k := KeyOf(tier, b);
      var group := if k in buckets then buckets[k] else [];
      if InBand(c, tier, b) {
        buckets := buckets[k := group + [b]];
      }
      i := i + 1;
    }
    assert sorted[..i] == sorted;
    GroupsAreBuckets(sorted, c, tier);
  }

  lemma {:induction false} GroupsSnoc(s: seq<Backup>, i: nat, c: Cutoffs, tier: Tier)
    requires i < |s|
    ensures Groups(s[..i + 1], c, tier) == AddToGroup(Groups(s[..i], c, tier), c, tier, s[i])
  {
    assert s[..i + 1][..i] == s[..i];
  }

  lemma {:induction false} FilterSnoc(s: seq<Backup>, i: nat, p: Backup -> bool)
    requires i < |s|
    ensures Filter(s[..i + 1], p) == Filter(s[..i], p) + (if p(s[i]) then [s[i]] else [])
  {
    assert s[..i + 1] == s[..i] + [s[i]];
    FilterAppend(s[..i], [s[i]], p);
    assert Filter([s[i]], p) == (if p(s[i]) then [s[i]] else []) + Filter([s[i]][1..], p);
  }

  /** The dictionary built from `s` holds exactly the non-empty buckets of
      `s`, each in the order of `s`. */
  lemma {:induction false} GroupsAreBuckets(s: seq<Backup>, c: Cutoffs, tier: Tier)
    ensures Grouped(Groups(s, c, tier), s, c, tier)
    decreases |s|
  {
    if s != [] {
      var n := |s| - 1;
      assert s[..n + 1] == s;
      GroupsAreBuckets(s[..n], c, tier);
      forall k ensures k in Groups(s, c, tier) <==> Filter(s, InBucket(c, tier, k)) != []
        ensures k in Groups(s, c, tier) ==> Groups(s, c, tier)[k] == Filter(s, InBucket(c, tier, k))
      {
        GroupStepKey(Groups(s[..n], c, tier), s, n, c, tier, k);
      }
    }
  }

  /** One step of the grouping loop, as seen by one key. */
  lemma {:induction false} GroupStepKey(buckets: map<BucketKey, seq<Backup>>, s: seq<Backup>, i: nat,
                                        c: Cutoffs, tier: Tier, k: BucketKey)
    requires i < |s| && Grouped(buckets, s[..i], c, tier)
    ensures var next := AddToGroup(buckets, c, tier, s[i]);
      (k in next <==> Filter(s[..i + 1], InBucket(c, tier, k)) != []) &&
      (k in next ==> next[k] == Filter(s[..i + 1], InBucket(c, tier, k)))
  {
    FilterSnoc(s, i, InBucket(c, tier, k));
  }

  /** The ids of the first entries of the non-empty lists under `keys`. */
  function FirstIds(buckets: map<BucketKey, seq<Backup>>, keys: set<BucketKey>): set<string>
  {
    set k | k in keys && k in buckets && buckets[k] != [] :: buckets[k][0].id
  }

  /** The keeping loop of a tier: `files_to_keep.add(backups[0]['id'])` for
      every non-empty list, in whatever order the dictionary yields them. */
  method KeepFirstOfEach(buckets: map<BucketKey, seq<Backup>>, keep0: set<string>) returns (keep: set<string>)
    ensures keep == keep0 + FirstIds(buckets, buckets.Keys)
  {
    keep := keep0;
    var todo := buckets.Keys;
    while todo != {}
      invariant todo <= buckets.Keys
      invariant keep == keep0 + FirstIds(buckets, buckets.Keys - todo)
      decreases |todo|
    {
      var k :| k in todo;
      var done := buckets.Keys - todo;
      assert buckets.Keys - (todo - {k}) == done + {k};
      if buckets[k] != [] {
        assert FirstIds(buckets, done + {k}) == FirstIds(buckets, done) + {buckets[k][0].id};
        keep := keep + {buckets[k][0].id};
      } else {
        assert FirstIds(buckets, done + {k}) == FirstIds(buckets, done);
      }
      todo := todo - {k};
    }
    assert buckets.Keys - todo == buckets.Keys;
  }

  /** The first entries of the grouped lists are exactly the backups
      `TierKept` keeps. */
  lemma {:induction false} FirstIdsAreTierKept(buckets: map<BucketKey, seq<Backup>>, s: seq<Backup>, c: Cutoffs, tier: Tier)
    requires Grouped(buckets, s, c, tier)
    ensures FirstIds(buckets, buckets.Keys) == TierKept(s, c, tier)
  {
    forall id | id in FirstIds(buckets, buckets.Keys) ensures id in TierKept(s, c, tier) {
      var k :| k in buckets && buckets[k] != [] && buckets[k][0].id == id;
      FirstIsHead(buckets, s, c, tier, k);
    }
    forall id | id in TierKept(s, c, tier) ensures id in FirstIds(buckets, buckets.Keys) {
      var b :| b in s && InBand(c, tier, b) &&
               BucketHead(s, c, tier, KeyOf(tier, b)) == Some(b) && b.id == id;
      HeadIsFirst(buckets, s, c, tier, b);
    }
  }

  lemma {:induction false} HeadIsFirst(buckets: map<BucketKey, seq<Backup>>, s: seq<Backup>, c: Cutoffs, tier: Tier, b: Backup)
    requires Grouped(buckets, s, c, tier)
    requires BucketHead(s, c, tier, KeyOf(tier, b)) == Some(b)
    ensures b.id in FirstIds(buckets, buckets.Keys)
  {
    var k := KeyOf(tier, b);
    assert k in buckets && buckets[k][0] == b;
  }

  lemma {:induction false} FirstIsHead(buckets: map<BucketKey, seq<Backup>>, s: seq<Backup>, c: Cutoffs, tier: Tier, k: BucketKey)
    requires Grouped(buckets, s, c, tier) && k in buckets && buckets[k] != []
    ensures var w := buckets[k][0];
      w in s && InBand(c, tier, w) && KeyOf(tier, w) == k && BucketHead(s, c, tier, k) == Some(w)
  {
    FilterMembers(s, InBucket(c, tier, k));
    assert InBucket(c, tier, k)(buckets[k][0]);
  }

  /** Categories 2 to 5: group one tier and keep the first of each group. */
  method KeepTier(sorted: seq<Backup>, c: Cutoffs, tier: Tier, keep0: set<string>) returns (keep: set<string>)
    ensures keep == keep0 + TierKept(sorted, c, tier)
  {
    var buckets := GroupByKey(sorted, c, tier);
    keep := KeepFirstOfEach(buckets, keep0);
    FirstIdsAreTierKept(buckets, sorted, c, tier);
  }

  /** The loop that fills `files_to_delete`, newest first. */
  method SelectForDeletion(sorted: seq<Backup>, keep: set<string>) returns (toDelete: seq<Backup>)
    ensures toDelete == DeleteList(sorted, keep)
  {
    toDelete := [];
    var i := 0;
    while i < |sorted|
      invariant 0 <= i <= |sorted|
      invariant toDelete == Filter(sorted[..i], IdNotIn(keep))
    {
      var b := sorted[i];
      assert sorted[..i + 1] == sorted[..i] + [b];
      FilterAppend(sorted[..i], [b], IdNotIn(keep));
      assert Filter([b], IdNotIn(keep)) == (if IdNotIn(keep)(b) then [b] else []) + Filter([b][1..], IdNotIn(keep));
      if b.id !in keep {
        toDelete := toDelete + [b];
      }
      i := i + 1;
    }
    assert sorted[..i] == sorted;
  }

  /** The delete loop: one request per entry; a request that fails with an
      `HttpError` is logged and the loop goes on. Returns the entries
      actually deleted and `deleted_count`. */
  method DeleteBackups(toDelete: seq<Backup>, rejected: set<string>) returns (deleted: seq<Backup>, count: nat)
    ensures deleted == Filter(toDelete, IdNotIn(rejected))
    ensures count == |deleted|
  {
    deleted := [];
    count := 0;
    var i := 0;
    while i < |toDelete|
      invariant 0 <= i <= |toDelete|
      invariant deleted == Filter(toDelete[..i], IdNotIn(rejected))
      invariant count == |deleted|
    {
      var b := toDelete[i];
      assert toDelete[..i + 1] == toDelete[..i] + [b];
      FilterAppend(toDelete[..i], [b], IdNotIn(rejected));
      assert Filter([b], IdNotIn(rejected)) == (if IdNotIn(rejected)(b) then [b] else []) + Filter([b][1..], IdNotIn(rejected));
      if b.id !in rejected {
        deleted := deleted + [b];
        count := count + 1;
      }
      i := i + 1;
    }
    assert toDelete[..i] == toDelete;
  }

  /** One run of `cleanup_google_drive_backups` on a listing, with the
      clock reading `now` and the set of ids the Drive service refuses to
      delete. It decides exactly what `Classify` decides, deletes nothing
      when it aborts, and otherwise deletes the planned entries the service
      accepts, in plan order. */
  method CleanupGoogleDriveBackups(now: int, p: Policy, files: seq<DriveFile>, rejected: set<string>)
    returns (outcome: Outcome, deleted: seq<Backup>)
    ensures outcome == Classify(now, p, files)
    ensures outcome.Aborted? ==> deleted == []
    ensures outcome.Planned? ==> deleted == Filter(outcome.delete, IdNotIn(rejected))
  {
    deleted := [];
    if files == [] {
      return Planned({}, []), [];
    }
    var parsing := ParseFiles(files);
    if parsing.ParseFailed? {
      return Aborted(InvalidDate(parsing.name)), [];
    }
    var parsed := parsing.backups;
    if parsed == [] {
      return Planned({}, []), [];
    }
    var sorted := Newest(parsed);
    var cutoffs := CutoffsFor(now, p);
    if cutoffs.None? {
      return Aborted(DateOverflow), [];
    }
    var c := cutoffs.value;
    var keep := KeepHourly(sorted, c);
    keep := KeepTier(sorted, c, Daily, keep);
    keep := KeepTier(sorted, c, Weekly, keep);
    keep := KeepTier(sorted, c, Monthly, keep);
    if p.keepYearly {
      keep := KeepTier(sorted, c, Yearly, keep);
    }
    assert keep == KeepSet(sorted, c, p.keepYearly);
    var toDelete := SelectForDeletion(sorted, keep);
    var count;
    deleted, count := DeleteBackups(toDelete, rejected);
    outcome := Planned(keep, toDelete);
    ClassifyOf(now, p, files, parsed, c);
  }

  lemma {:induction false} ClassifyOf(now: int, p: Policy, files: seq<DriveFile>, parsed: seq<Backup>, c: Cutoffs)
    requires ParseListing(files) == ParsedAll(parsed) && parsed != [] && CutoffsFor(now, p) == Some(c)
    ensures var keep := KeepSet(Newest(parsed), c, p.keepYearly);
      Classify(now, p, files) == Planned(keep, DeleteList(Newest(parsed), keep))
  {
  }
}
