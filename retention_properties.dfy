/** What the retention classifier guarantees: which entries it parses, that
    keep and delete partition the parsed backups, that the hourly band is
    kept whole, that each calendar bucket keeps exactly its newest backup
    (the earliest listed one on ties), that with yearly retention disabled
    everything past the monthly window goes, and that running the cleanup
    again on what remains deletes exactly what the first run failed to
    delete, so nothing at all after a fully successful run. */
module RetentionProperties {
  import opened Optional
  import opened Sequences
  import opened BackupName
  import opened Retention

  /** Drive ids are unique within a listing. */
  predicate UniqueFileIds(files: seq<DriveFile>)
  {
    forall i, j :: 0 <= i < j < |files| ==> files[i].id != files[j].id
  }

  /** Two backups with the same id are the same backup. */
  predicate IdsDetermine(s: seq<Backup>)
  {
    forall i, j :: 0 <= i < |s| && 0 <= j < |s| && s[i].id == s[j].id ==> s[i] == s[j]
  }

  /** The windows grow from tier to tier, so the bands do not overlap. */
  predicate NestedWindows(p: Policy)
  {
    p.hourlyHours * MicrosPerHour <= p.dailyDays * MicrosPerDay <=
    p.weeklyWeeks * 7 * MicrosPerDay <= 30 * p.monthlyMonths * MicrosPerDay
  }

  /** The listing after the entries with the given ids were deleted. */
  function WithoutIds(files: seq<DriveFile>, removed: set<string>): seq<DriveFile>
  {
    Filter(files, (f: DriveFile) => f.id !in removed)
  }

  /** Reference definition of a bucket's survivor, without sorting: the
      backup of bucket `k` with the largest timestamp, the first one in
      listing order among equal timestamps. */
  function BucketWinner(s: seq<Backup>, c: Cutoffs, tier: Tier, k: BucketKey): (w: Option<Backup>)
    ensures w.None? <==> forall b :: b in s ==> !(InBand(c, tier, b) && KeyOf(tier, b) == k)
    ensures w.Some? ==>
      exists i :: IsFirstMax(Filter(s, InBucket(c, tier, k)), BackupTime, i) &&
                  w.value == Filter(s, InBucket(c, tier, k))[i]
  {
    var bucket := Filter(s, InBucket(c, tier, k));
    FilterMembers(s, InBucket(c, tier, k));
    if bucket == [] then
      EmptyFilter(s, InBucket(c, tier, k));
      None
    else
      assert bucket[0] in s && InBucket(c, tier, k)(bucket[0]);
      Some(bucket[FirstMaxIndex(bucket, BackupTime)])
  }

  /** An empty filter means that no element passes. */
  lemma {:induction false} EmptyFilter(s: seq<Backup>, p: Backup -> bool)
    requires Filter(s, p) == []
    ensures forall b :: b in s ==> !p(b)
  {
    FilterMembers(s, p);
    forall b | b in s ensures !p(b) {
      var i :| 0 <= i < |s| && s[i] == b;
    }
  }

  // ---------------------------------------------------------------------
  // Parsing the listing

  /** The listing aborts exactly when some matched name is not a date. */
  lemma {:induction false} ParseListingFails(files: seq<DriveFile>)
    ensures ParseListing(files).ParseFailed? <==> SomeBadDate(files)
  {
    if files != [] {
      ParseListingFails(files[1..]);
      SomeBadDateSplit(files);
    }
  }

  /** Some listed name matches but is not a date. */
  predicate SomeBadDate(files: seq<DriveFile>)
  {
    exists i :: 0 <= i < |files| && ParseBackupTimestamp(files[i].name).BadDate?
  }

  lemma {:induction false} SomeBadDateSplit(files: seq<DriveFile>)
    requires files != []
    ensures SomeBadDate(files) <==>
            ParseBackupTimestamp(files[0].name).BadDate? || SomeBadDate(files[1..])
  {
    if SomeBadDate(files[1..]) {
      var i :| 0 <= i < |files[1..]| && ParseBackupTimestamp(files[1..][i].name).BadDate?;
      assert files[i + 1] == files[1..][i];
    }
    if SomeBadDate(files) {
      var i :| 0 <= i < |files| && ParseBackupTimestamp(files[i].name).BadDate?;
      if i > 0 { assert files[1..][i - 1] == files[i]; }
    }
  }

  /** Without a bad date, the parsed backups are the entries with a
      timestamp, in listing order. */
  lemma {:induction false} ParseListingContents(files: seq<DriveFile>)
    requires ParseListing(files).ParsedAll?
    ensures var bs, fs := ParseListing(files).backups, Filter(files, HasTimestamp);
      |bs| == |fs| && forall i :: 0 <= i < |bs| ==> HasTimestamp(fs[i]) && bs[i] == ToBackup(fs[i])
  {
    if files != [] {
      var f := files[0];
      assert ParseListing(files[1..]).ParsedAll?;
      ParseListingContents(files[1..]);
      var bs, fs := ParseListing(files).backups, Filter(files, HasTimestamp);
      var bs', fs' := ParseListing(files[1..]).backups, Filter(files[1..], HasTimestamp);
      if HasTimestamp(f) {
        assert bs == [ToBackup(f)] + bs';
        assert fs == [f] + fs';
        forall i | 0 <= i < |bs| ensures HasTimestamp(fs[i]) && bs[i] == ToBackup(fs[i]) {
          if i > 0 {
            assert bs[i] == bs'[i - 1] && fs[i] == fs'[i - 1];
          }
        }
      } else {
        assert bs == bs' && fs == fs';
      }
    }
  }

  /** Every parsed backup comes from a listed entry with a timestamp, and
      every listed entry with a timestamp gives a parsed backup. */
  lemma {:induction false} ParsedMembers(files: seq<DriveFile>)
    requires ParseListing(files).ParsedAll?
    ensures var bs := ParseListing(files).backups;
      (forall b :: b in bs ==> DriveFile(b.id, b.name) in files &&
                               ParseBackupTimestamp(b.name) == Parsed(b.timestamp)) &&
      (forall f :: f in files && HasTimestamp(f) ==> ToBackup(f) in bs)
  {
    var bs, fs := ParseListing(files).backups, Filter(files, HasTimestamp);
    ParseListingContents(files);
    FilterMembers(files, HasTimestamp);
    forall b | b in bs
      ensures DriveFile(b.id, b.name) in files && ParseBackupTimestamp(b.name) == Parsed(b.timestamp)
    {
      var i :| 0 <= i < |bs| && bs[i] == b;
      assert fs[i] in files && b == ToBackup(fs[i]);
      assert DriveFile(b.id, b.name) == fs[i];
    }
    forall f | f in files && HasTimestamp(f) ensures ToBackup(f) in bs {
      var i :| 0 <= i < |files| && files[i] == f;
      assert f in fs;
      var j :| 0 <= j < |fs| && fs[j] == f;
      assert bs[j] == ToBackup(f);
    }
  }

  lemma {:induction false} ParsedIdsDetermine(files: seq<DriveFile>)
    requires ParseListing(files).ParsedAll? && UniqueFileIds(files)
    ensures IdsDetermine(ParseListing(files).backups)
  {
    var bs := ParseListing(files).backups;
    ParsedMembers(files);
    forall i, j | 0 <= i < |bs| && 0 <= j < |bs| && bs[i].id == bs[j].id ensures bs[i] == bs[j] {
      var x, y := bs[i], bs[j];
      assert x in bs && y in bs;
      var fi :| 0 <= fi < |files| && files[fi] == DriveFile(x.id, x.name);
      var fj :| 0 <= fj < |files| && files[fj] == DriveFile(y.id, y.name);
      assert fi == fj;
    }
  }

  /** Removing entries by id from the listing removes the same ids from
      the parsed backups. */
  lemma {:induction false} ParseWithoutIds(files: seq<DriveFile>, removed: set<string>)
    requires ParseListing(files).ParsedAll?
    ensures ParseListing(WithoutIds(files, removed)) ==
            ParsedAll(Filter(ParseListing(files).backups, IdNotIn(removed)))
  {
    if files != [] {
      var f, rest := files[0], files[1..];
      var w' := WithoutIds(rest, removed);
      ParseWithoutIds(rest, removed);
      if f.id in removed {
        assert WithoutIds(files, removed) == w';
        ParseWithoutIdsSkip(files, removed);
      } else {
        var w := [f] + w';
        assert WithoutIds(files, removed) == w;
        assert w[0] == f && w[1..] == w';
        ParseWithoutIdsKeep(files, removed);
      }
    }
  }

  /** The removed head of a listing parses like the rest. */
  lemma {:induction false} ParseWithoutIdsSkip(files: seq<DriveFile>, removed: set<string>)
    requires files != [] && files[0].id in removed && ParseListing(files).ParsedAll?
    ensures ParseListing(files[1..]).ParsedAll?
    ensures Filter(ParseListing(files).backups, IdNotIn(removed)) ==
            Filter(ParseListing(files[1..]).backups, IdNotIn(removed))
  {
    var r := ParseBackupTimestamp(files[0].name);
    if r.Parsed? {
      var b := Backup(files[0].id, files[0].name, r.t);
      assert ParseListing(files).backups == [b] + ParseListing(files[1..]).backups;
    }
  }

  /** A kept head of a listing parses to the same head. */
  lemma {:induction false} ParseWithoutIdsKeep(files: seq<DriveFile>, removed: set<string>)
    requires files != [] && files[0].id !in removed && ParseListing(files).ParsedAll?
    requires ParseListing(WithoutIds(files[1..], removed)) ==
             ParsedAll(Filter(ParseListing(files[1..]).backups, IdNotIn(removed)))
    ensures ParseListing([files[0]] + WithoutIds(files[1..], removed)) ==
            ParsedAll(Filter(ParseListing(files).backups, IdNotIn(removed)))
  {
    var f, w' := files[0], WithoutIds(files[1..], removed);
    var w := [f] + w';
    assert w[0] == f && w[1..] == w';
    var r := ParseBackupTimestamp(f.name);
    if r.Parsed? {
      var b := Backup(f.id, f.name, r.t);
      var bs' := ParseListing(files[1..]).backups;
      assert ParseListing(files).backups == [b] + bs';
      assert Filter([b] + bs', IdNotIn(removed)) == [b] + Filter(bs', IdNotIn(removed));
    }
  }

  // ---------------------------------------------------------------------
  // Sorting and buckets

  lemma {:induction false} NewestSameMembers(s: seq<Backup>)
    ensures forall b :: b in Newest(s) <==> b in s
  {
    assert multiset(Newest(s)) == multiset(s);
    forall b ensures b in Newest(s) <==> b in s {
      assert b in Newest(s) <==> b in multiset(Newest(s));
      assert b in s <==> b in multiset(s);
    }
  }

  /** After the newest-first sort, the first backup of a bucket is the
      bucket's winner: the newest one, the earliest listed among ties. */
  lemma {:induction false} HeadOfSortedBucket(s: seq<Backup>, c: Cutoffs, tier: Tier, k: BucketKey)
    ensures BucketHead(Newest(s), c, tier, k) == BucketWinner(s, c, tier, k)
  {
    var p := InBucket(c, tier, k);
    var bucket := Filter(s, p);
    SortFilter(s, BackupTime, p);
    if bucket != [] {
      SortHead(bucket, BackupTime);
    }
  }

  /** The ids of the winners of the non-empty buckets of a tier. */
  function WinnerIds(s: seq<Backup>, c: Cutoffs, tier: Tier): set<string>
  {
    set b | b in s && InBand(c, tier, b) && BucketWinner(s, c, tier, KeyOf(tier, b)).Some? ::
      BucketWinner(s, c, tier, KeyOf(tier, b)).value.id
  }

  /** A bucketed tier keeps exactly one id per non-empty bucket: the id of
      the bucket's winner. */
  lemma {:induction false} TierKeepsWinners(s: seq<Backup>, c: Cutoffs, tier: Tier)
    ensures TierKept(Newest(s), c, tier) == WinnerIds(s, c, tier)
  {
    forall id | id in TierKept(Newest(s), c, tier) ensures id in WinnerIds(s, c, tier) {
      KeptIsWinner(s, c, tier, id);
    }
    forall id | id in WinnerIds(s, c, tier) ensures id in TierKept(Newest(s), c, tier) {
      var b :| b in s && InBand(c, tier, b) && BucketWinner(s, c, tier, KeyOf(tier, b)).Some? &&
               BucketWinner(s, c, tier, KeyOf(tier, b)).value.id == id;
      WinnerIsKept(s, c, tier, b);
    }
  }

  lemma {:induction false} KeptIsWinner(s: seq<Backup>, c: Cutoffs, tier: Tier, id: string)
    requires id in TierKept(Newest(s), c, tier)
    ensures exists b :: b in s && InBand(c, tier, b) &&
                        BucketWinner(s, c, tier, KeyOf(tier, b)) == Some(b) && b.id == id
  {
    var sorted := Newest(s);
    var b :| b in sorted && InBand(c, tier, b) &&
             BucketHead(sorted, c, tier, KeyOf(tier, b)) == Some(b) && b.id == id;
    NewestSameMembers(s);
    HeadOfSortedBucket(s, c, tier, KeyOf(tier, b));
  }

  lemma {:induction false} WinnerIsKept(s: seq<Backup>, c: Cutoffs, tier: Tier, b: Backup)
    requires b in s && InBand(c, tier, b)
    ensures BucketWinner(s, c, tier, KeyOf(tier, b)).Some?
    ensures BucketWinner(s, c, tier, KeyOf(tier, b)).value.id in TierKept(Newest(s), c, tier)
  {
    var sorted := Newest(s);
    var k := KeyOf(tier, b);
    HeadOfSortedBucket(s, c, tier, k);
    NewestSameMembers(s);
    var bucket := Filter(sorted, InBucket(c, tier, k));
    FilterMembers(sorted, InBucket(c, tier, k));
    assert b in sorted;
    var w := bucket[0];
    assert w in sorted && InBand(c, tier, w) && KeyOf(tier, w) == k;
    assert BucketHead(sorted, c, tier, KeyOf(tier, w)) == Some(w);
  }

  // ---------------------------------------------------------------------
  // Keep and delete

  /** Keep and delete partition the parsed backups: the kept ids are ids of
      parsed backups, the delete list holds exactly the parsed backups
      whose id is not kept, newest first, and no deleted id is kept. */
  lemma {:induction false} ClassifyPartitions(now: int, p: Policy, files: seq<DriveFile>)
    requires Classify(now, p, files).Planned?
    ensures ParseListing(files).ParsedAll?
    ensures var parsed, o := ParseListing(files).backups, Classify(now, p, files);
      o.keep <= Ids(parsed) &&
      (forall b :: b in o.delete <==> b in parsed && b.id !in o.keep) &&
      Ids(o.delete) !! o.keep &&
      IsSortedDesc(o.delete, BackupTime)
  {
    var parsed := ParseListing(files).backups;
    var o := Classify(now, p, files);
    if parsed != [] {
      var c := CutoffsFor(now, p).value;
      var sorted := Newest(parsed);
      NewestSameMembers(parsed);
      SortIsSorted(parsed, BackupTime);
      FilterSorted(sorted, BackupTime, IdNotIn(o.keep));
    }
  }

  /** Every parsed backup inside the hourly window is kept. */
  lemma {:induction false} HourlyBackupsKept(now: int, p: Policy, files: seq<DriveFile>, b: Backup)
    requires Classify(now, p, files).Planned? && ParseListing(files).ParsedAll?
    requires b in ParseListing(files).backups
    requires BackupTime(b) >= now - p.hourlyHours * MicrosPerHour
    ensures b.id in Classify(now, p, files).keep
  {
    NewestSameMembers(ParseListing(files).backups);
  }

  /** In every tier that runs, the winner of every non-empty bucket is
      kept, and a tier keeps nothing but winners. */
  lemma {:induction false} WinnersKept(now: int, p: Policy, files: seq<DriveFile>, tier: Tier, b: Backup)
    requires Classify(now, p, files).Planned? && ParseListing(files).ParsedAll?
    requires b in ParseListing(files).backups
    requires CutoffsFor(now, p).Some? && InBand(CutoffsFor(now, p).value, tier, b)
    requires tier != Yearly || p.keepYearly
    ensures var parsed, c := ParseListing(files).backups, CutoffsFor(now, p).value;
      var w := BucketWinner(parsed, c, tier, KeyOf(tier, b));
      w.Some? && w.value.id in Classify(now, p, files).keep &&
      TierKept(Newest(parsed), c, tier) <= Classify(now, p, files).keep
  {
    var parsed, c := ParseListing(files).backups, CutoffsFor(now, p).value;
    TierKeepsWinners(parsed, c, tier);
  }

  lemma {:induction false} NestedCutoffs(now: int, p: Policy)
    requires NestedWindows(p) && CutoffsFor(now, p).Some?
    ensures Ordered(CutoffsFor(now, p).value)
  {
  }

  /** With ordered boundaries, a backup lies in at most one band, and a
      backup of a bucketed band is not hourly. */
  lemma {:induction false} BandsDisjoint(c: Cutoffs, tier: Tier, b: Backup)
    requires Ordered(c) && InBand(c, tier, b)
    ensures !IsHourly(c, b)
    ensures forall t: Tier :: InBand(c, t, b) ==> t == tier
  {
  }

  /** What `Classify` plans when it does not abort. */
  lemma {:induction false} ClassifyShape(now: int, p: Policy, files: seq<DriveFile>)
    requires Classify(now, p, files).Planned?
    ensures ParseListing(files).ParsedAll?
    ensures var parsed, o := ParseListing(files).backups, Classify(now, p, files);
      if parsed == [] then o == Planned({}, [])
      else CutoffsFor(now, p).Some? &&
           o.keep == KeepSet(Newest(parsed), CutoffsFor(now, p).value, p.keepYearly) &&
           o.delete == DeleteList(Newest(parsed), o.keep)
  {
  }

  lemma {:induction false} SameIdIsSame(s: seq<Backup>, b: Backup)
    requires IdsDetermine(s) && b in s
    ensures forall r :: r in Newest(s) && r.id == b.id ==> r == b
  {
    NewestSameMembers(s);
    forall r | r in Newest(s) && r.id == b.id ensures r == b {
      var i :| 0 <= i < |s| && s[i] == r;
      var j :| 0 <= j < |s| && s[j] == b;
    }
  }

  lemma {:induction false} NotKeptHourly(s: seq<Backup>, c: Cutoffs, b: Backup)
    requires IdsDetermine(s) && b in s && !IsHourly(c, b)
    ensures b.id !in HourlyKept(Newest(s), c)
  {
    SameIdIsSame(s, b);
  }

  lemma {:induction false} NotKeptByTier(s: seq<Backup>, c: Cutoffs, t: Tier, b: Backup)
    requires IdsDetermine(s) && b in s && !InBand(c, t, b)
    ensures b.id !in TierKept(Newest(s), c, t)
  {
    SameIdIsSame(s, b);
  }

  lemma {:induction false} LoserNotKeptByTier(s: seq<Backup>, c: Cutoffs, tier: Tier, b: Backup)
    requires IdsDetermine(s) && b in s
    requires BucketWinner(s, c, tier, KeyOf(tier, b)) != Some(b)
    ensures b.id !in TierKept(Newest(s), c, tier)
  {
    SameIdIsSame(s, b);
    HeadOfSortedBucket(s, c, tier, KeyOf(tier, b));
  }

  /** With ordered boundaries and ids that identify backups, a backup of a
      bucket that is not the bucket's winner is not kept. */
  lemma {:induction false} LoserNotKept(s: seq<Backup>, c: Cutoffs, keepYearly: bool, tier: Tier, b: Backup)
    requires IdsDetermine(s) && Ordered(c)
    requires b in s && InBand(c, tier, b)
    requires BucketWinner(s, c, tier, KeyOf(tier, b)) != Some(b)
    ensures b.id !in KeepSet(Newest(s), c, keepYearly)
  {
    BandsDisjoint(c, tier, b);
    NotKeptHourly(s, c, b);
    LoserNotKeptByTier(s, c, tier, b);
    if tier != Daily { NotKeptByTier(s, c, Daily, b); }
    if tier != Weekly { NotKeptByTier(s, c, Weekly, b); }
    if tier != Monthly { NotKeptByTier(s, c, Monthly, b); }
    if tier != Yearly { NotKeptByTier(s, c, Yearly, b); }
    NotInKeepSet(Newest(s), c, keepYearly, b.id);
  }

  /** An id that no band keeps is not in the keep set. */
  lemma {:induction false} NotInKeepSet(sorted: seq<Backup>, c: Cutoffs, keepYearly: bool, id: string)
    requires id !in HourlyKept(sorted, c)
    requires id !in TierKept(sorted, c, Daily) && id !in TierKept(sorted, c, Weekly)
    requires id !in TierKept(sorted, c, Monthly) && id !in TierKept(sorted, c, Yearly)
    ensures id !in KeepSet(sorted, c, keepYearly)
  {
  }

  /** With yearly retention off, ordered boundaries and ids that identify
      backups, a backup older than the monthly boundary is not kept. */
  lemma {:induction false} OldNotKept(s: seq<Backup>, c: Cutoffs, b: Backup)
    requires IdsDetermine(s) && Ordered(c)
    requires b in s && BackupTime(b) < c.monthly
    ensures b.id !in KeepSet(Newest(s), c, false)
  {
    NotKeptHourly(s, c, b);
    NotKeptByTier(s, c, Daily, b);
    NotKeptByTier(s, c, Weekly, b);
    NotKeptByTier(s, c, Monthly, b);
  }

  /** With nested windows and unique ids, a backup of a bucket that is not
      the bucket's winner is deleted. */
  lemma {:induction false} LosersDeleted(now: int, p: Policy, files: seq<DriveFile>, tier: Tier, b: Backup)
    requires Classify(now, p, files).Planned? && ParseListing(files).ParsedAll?
    requires NestedWindows(p) && UniqueFileIds(files)
    requires b in ParseListing(files).backups
    requires CutoffsFor(now, p).Some? && InBand(CutoffsFor(now, p).value, tier, b)
    requires BucketWinner(ParseListing(files).backups, CutoffsFor(now, p).value, tier, KeyOf(tier, b)) != Some(b)
    ensures b in Classify(now, p, files).delete
  {
    var parsed, c := ParseListing(files).backups, CutoffsFor(now, p).value;
    ClassifyShape(now, p, files);
    NestedCutoffs(now, p);
    ParsedIdsDetermine(files);
    LoserNotKept(parsed, c, p.keepYearly, tier, b);
    NewestSameMembers(parsed);
  }

  /** With yearly retention disabled and nested windows, every backup
      older than the monthly window is deleted. */
  lemma {:induction false} OldBackupsDeletedWithoutYearly(now: int, p: Policy, files: seq<DriveFile>, b: Backup)
    requires Classify(now, p, files).Planned? && ParseListing(files).ParsedAll?
    requires !p.keepYearly && NestedWindows(p) && UniqueFileIds(files)
    requires b in ParseListing(files).backups
    requires BackupTime(b) < now - 30 * p.monthlyMonths * MicrosPerDay
    ensures b in Classify(now, p, files).delete
  {
    var parsed := ParseListing(files).backups;
    ClassifyShape(now, p, files);
    var c := CutoffsFor(now, p).value;
    NestedCutoffs(now, p);
    ParsedIdsDetermine(files);
    OldNotKept(parsed, c, b);
    NewestSameMembers(parsed);
  }

  // ---------------------------------------------------------------------
  // Running the cleanup again

  lemma {:induction false} HourlyKeptWithout(s: seq<Backup>, c: Cutoffs, removed: set<string>)
    requires HourlyKept(s, c) !! removed
    ensures HourlyKept(Filter(s, IdNotIn(removed)), c) == HourlyKept(s, c)
  {
    FilterMembers(s, IdNotIn(removed));
    var s' := Filter(s, IdNotIn(removed));
    forall id | id in HourlyKept(s, c) ensures id in HourlyKept(s', c) {
      var b :| b in s && IsHourly(c, b) && b.id == id;
      var i :| 0 <= i < |s| && s[i] == b;
      assert IdNotIn(removed)(s[i]);
    }
  }

  /** A bucket keeps its head when the head's id is not removed. */
  lemma {:induction false} BucketHeadWithout(s: seq<Backup>, c: Cutoffs, tier: Tier, k: BucketKey, removed: set<string>)
    requires BucketHead(s, c, tier, k).Some? ==> BucketHead(s, c, tier, k).value.id !in removed
    ensures BucketHead(Filter(s, IdNotIn(removed)), c, tier, k) == BucketHead(s, c, tier, k)
  {
    var p, q := InBucket(c, tier, k), IdNotIn(removed);
    FilterCommutes(s, q, p);
    var bucket := Filter(s, p);
    if bucket != [] {
      FilterKeepsHead(bucket, q);
    }
  }

  lemma {:induction false} HeadIsKept(s: seq<Backup>, c: Cutoffs, tier: Tier, k: BucketKey)
    requires BucketHead(s, c, tier, k).Some?
    ensures BucketHead(s, c, tier, k).value.id in TierKept(s, c, tier)
  {
    FilterMembers(s, InBucket(c, tier, k));
    var h := Filter(s, InBucket(c, tier, k))[0];
    assert h in s && InBand(c, tier, h) && KeyOf(tier, h) == k;
    assert BucketHead(s, c, tier, KeyOf(tier, h)) == Some(h);
  }

  lemma {:induction false} TierKeptWithoutShrinks(s: seq<Backup>, c: Cutoffs, tier: Tier, removed: set<string>, id: string)
    requires TierKept(s, c, tier) !! removed
    requires id in TierKept(Filter(s, IdNotIn(removed)), c, tier)
    ensures id in TierKept(s, c, tier)
  {
    var s' := Filter(s, IdNotIn(removed));
    var b :| b in s' && InBand(c, tier, b) &&
             BucketHead(s', c, tier, KeyOf(tier, b)) == Some(b) && b.id == id;
    var k := KeyOf(tier, b);
    FilterMembers(s, IdNotIn(removed));
    FilterMembers(s, InBucket(c, tier, k));
    assert b in s;
    HeadIsKept(s, c, tier, k);
    BucketHeadWithout(s, c, tier, k, removed);
  }

  lemma {:induction false} TierKeptWithoutGrows(s: seq<Backup>, c: Cutoffs, tier: Tier, removed: set<string>, id: string)
    requires TierKept(s, c, tier) !! removed
    requires id in TierKept(s, c, tier)
    ensures id in TierKept(Filter(s, IdNotIn(removed)), c, tier)
  {
    var s' := Filter(s, IdNotIn(removed));
    var b :| b in s && InBand(c, tier, b) &&
             BucketHead(s, c, tier, KeyOf(tier, b)) == Some(b) && b.id == id;
    FilterMembers(s, IdNotIn(removed));
    var i :| 0 <= i < |s| && s[i] == b;
    assert IdNotIn(removed)(s[i]);
    assert b in s';
    BucketHeadWithout(s, c, tier, KeyOf(tier, b), removed);
  }

  lemma {:induction false} TierKeptWithout(s: seq<Backup>, c: Cutoffs, tier: Tier, removed: set<string>)
    requires TierKept(s, c, tier) !! removed
    ensures TierKept(Filter(s, IdNotIn(removed)), c, tier) == TierKept(s, c, tier)
  {
    forall id | id in TierKept(Filter(s, IdNotIn(removed)), c, tier) ensures id in TierKept(s, c, tier) {
      TierKeptWithoutShrinks(s, c, tier, removed, id);
    }
    forall id | id in TierKept(s, c, tier) ensures id in TierKept(Filter(s, IdNotIn(removed)), c, tier) {
      TierKeptWithoutGrows(s, c, tier, removed, id);
    }
  }

  lemma {:induction false} KeepSetWithout(s: seq<Backup>, c: Cutoffs, keepYearly: bool, removed: set<string>)
    requires KeepSet(s, c, keepYearly) !! removed
    ensures KeepSet(Filter(s, IdNotIn(removed)), c, keepYearly) == KeepSet(s, c, keepYearly)
  {
    HourlyKeptWithout(s, c, removed);
    TierKeptWithout(s, c, Daily, removed);
    TierKeptWithout(s, c, Weekly, removed);
    TierKeptWithout(s, c, Monthly, removed);
    if keepYearly {
      TierKeptWithout(s, c, Yearly, removed);
    }
  }

  /** Dropping backups whose ids are not kept leaves the kept ids as they
      are and drops the same backups from the delete list. */
  lemma {:induction false} ReclassifyWithout(s: seq<Backup>, c: Cutoffs, keepYearly: bool, removed: set<string>)
    requires removed !! KeepSet(Newest(s), c, keepYearly)
    ensures var keep, s' := KeepSet(Newest(s), c, keepYearly), Filter(s, IdNotIn(removed));
      KeepSet(Newest(s'), c, keepYearly) == keep &&
      DeleteList(Newest(s'), keep) == Filter(DeleteList(Newest(s), keep), IdNotIn(removed))
  {
    var keep := KeepSet(Newest(s), c, keepYearly);
    SortFilter(s, BackupTime, IdNotIn(removed));
    KeepSetWithout(Newest(s), c, keepYearly, removed);
    FilterCommutes(Newest(s), IdNotIn(removed), IdNotIn(keep));
  }

  lemma {:induction false} KeepSetOfNone(c: Cutoffs, keepYearly: bool)
    ensures KeepSet([], c, keepYearly) == {}
  {
    assert forall t: Tier :: TierKept([], c, t) == {};
  }

  /** Re-running the cleanup with the same `now` after some deletions
      succeeded keeps the same ids and deletes exactly the entries whose
      deletion did not happen. */
  lemma {:induction false} RerunAfterDeletion(now: int, p: Policy, files: seq<DriveFile>, removed: set<string>)
    requires Classify(now, p, files).Planned?
    requires removed !! Classify(now, p, files).keep
    ensures var o := Classify(now, p, files);
      Classify(now, p, WithoutIds(files, removed)) ==
      Planned(o.keep, Filter(o.delete, IdNotIn(removed)))
  {
    var o := Classify(now, p, files);
    var parsed := ParseListing(files).backups;
    ClassifyShape(now, p, files);
    ParseWithoutIds(files, removed);
    var parsed' := Filter(parsed, IdNotIn(removed));
    if parsed == [] {
      assert parsed' == [];
      assert Filter(o.delete, IdNotIn(removed)) == [];
    } else {
      var c := CutoffsFor(now, p).value;
      ReclassifyWithout(parsed, c, p.keepYearly, removed);
      if parsed' == [] {
        KeepSetOfNone(c, p.keepYearly);
        assert Newest(parsed') == [];
      }
    }
  }

  /** The headline property: after every deletion succeeded, classifying
      the remaining listing with the same `now` deletes nothing and keeps
      the same ids. */
  lemma {:induction false} RerunDeletesNothing(now: int, p: Policy, files: seq<DriveFile>)
    requires Classify(now, p, files).Planned?
    ensures var o := Classify(now, p, files);
      Classify(now, p, WithoutIds(files, Ids(o.delete))) == Planned(o.keep, [])
  {
    var o := Classify(now, p, files);
    DeletedIdsNotKept(now, p, files);
    RerunAfterDeletion(now, p, files, Ids(o.delete));
    NothingLeft(o.delete, Ids(o.delete));
  }

  lemma {:induction false} DeletedIdsNotKept(now: int, p: Policy, files: seq<DriveFile>)
    requires Classify(now, p, files).Planned?
    ensures Ids(Classify(now, p, files).delete) !! Classify(now, p, files).keep
  {
    ClassifyShape(now, p, files);
    var o := Classify(now, p, files);
    if ParseListing(files).backups != [] {
    }
  }

  lemma {:induction false} NothingLeft(s: seq<Backup>, ids: set<string>)
    requires Ids(s) <= ids
    ensures Filter(s, IdNotIn(ids)) == []
  {
    if s != [] {
      assert s[0] in s;
      assert Ids(s[1..]) <= Ids(s) by {
        forall id | id in Ids(s[1..]) ensures id in Ids(s) {
          var b :| b in s[1..] && b.id == id;
          assert b in s;
        }
      }
      NothingLeft(s[1..], ids);
    }
  }


  // ---------------------------------------------------------------------
  // Names that are not backups, and aborts

  /** Everything deleted is a listed entry whose name parses; with unique
      ids, an entry whose name does not match the pattern is neither kept
      nor deleted. */
  lemma {:induction false} UnmatchedNamesUntouched(now: int, p: Policy, files: seq<DriveFile>, f: DriveFile)
    requires Classify(now, p, files).Planned?
    requires f in files && ParseBackupTimestamp(f.name).NoMatch?
    ensures forall b :: b in Classify(now, p, files).delete ==>
              DriveFile(b.id, b.name) in files && DriveFile(b.id, b.name) != f
    ensures UniqueFileIds(files) ==>
              f.id !in Classify(now, p, files).keep && f.id !in Ids(Classify(now, p, files).delete)
  {
    var o := Classify(now, p, files);
    ClassifyPartitions(now, p, files);
    var parsed := ParseListing(files).backups;
    ParsedMembers(files);
    if UniqueFileIds(files) {
      forall b | b in parsed ensures b.id != f.id {
        var i :| 0 <= i < |files| && files[i] == DriveFile(b.id, b.name);
        var j :| 0 <= j < |files| && files[j] == f;
        assert i != j;
      }
    }
  }

  /** The cleanup aborts, deleting nothing, exactly when a matched name is
      not a valid date, or when there is a parsed backup and a cutoff
      overflows the datetime range. */
  lemma {:induction false} AbortsExactly(now: int, p: Policy, files: seq<DriveFile>)
    ensures Classify(now, p, files).Aborted? <==>
      (exists i :: 0 <= i < |files| && ParseBackupTimestamp(files[i].name).BadDate?) ||
      ((exists i :: 0 <= i < |files| && HasTimestamp(files[i])) && CutoffsFor(now, p).None?)
  {
    ParseListingFails(files);
    if ParseListing(files).ParsedAll? {
      var parsed := ParseListing(files).backups;
      ParsedMembers(files);
      if exists i :: 0 <= i < |files| && HasTimestamp(files[i]) {
        var i :| 0 <= i < |files| && HasTimestamp(files[i]);
        assert ToBackup(files[i]) in parsed;
      }
      if parsed != [] {
        assert parsed[0] in parsed;
        var j :| 0 <= j < |files| && files[j] == DriveFile(parsed[0].id, parsed[0].name);
        assert HasTimestamp(files[j]);
      }
    }
  }
}
