/** The tiered retention classifier inside `cleanup_google_drive_backups`,
    as pure functions of the clock reading `now`, the policy and the Drive
    listing. It parses every listed name, sorts the parsed backups newest
    first (stably), cuts them into an hourly band and four bucketed tiers,
    keeps every hourly backup and the first (newest) backup of every
    calendar bucket of the other tiers, and deletes every parsed backup
    whose id was not kept. The imperative version in module DriveCleanup is
    proved to compute exactly `Classify`. */
module Retention {
  import opened Optional
  import opened Sequences
  import opened Calendar
  import opened BackupName

  /** An entry of the Drive listing (`files(id, name)`). */
  datatype DriveFile = DriveFile(id: string, name: string)

  /** An entry whose name carried a timestamp (an element of
      `backups_by_time`). */
  datatype Backup = Backup(id: string, name: string, timestamp: ValidDateTime)

  /** The retention settings, as `int()` read them: any integers. */
  datatype Policy = Policy(hourlyHours: int, dailyDays: int, weeklyWeeks: int,
                           monthlyMonths: int, keepYearly: bool)

  /** The four band boundaries, in microseconds like `now`. */
  datatype Cutoffs = Cutoffs(hourly: int, daily: int, weekly: int, monthly: int)

  /** The tiers that keep one backup per calendar bucket. */
  datatype Tier = Daily | Weekly | Monthly | Yearly

  /** The bucket keys `%Y-%m-%d`, `%Y-W%W`, `%Y-%m` and `%Y`, as the tuples
      of fields those strings encode one to one. */
  datatype BucketKey =
    | DayKey(year: int, month: int, day: int)
    | WeekKey(year: int, week: int)
    | MonthKey(year: int, month: int)
    | YearKey(year: int)

  /** Why a cleanup stops before deleting anything: `strptime` rejected a
      matched name, or a cutoff fell outside the datetime range. */
  datatype Abort = InvalidDate(name: string) | DateOverflow

  /** What a cleanup decides. */
  datatype Outcome =
    | Aborted(reason: Abort)
    | Planned(keep: set<string>, delete: seq<Backup>)

  /** Parsing the listing: the first entry whose matched digits are not a
      date aborts; otherwise the parsed backups in listing order. */
  datatype Parsing = ParseFailed(name: string) | ParsedAll(backups: seq<Backup>)

  const MicrosPerHour: int := 3600 * MicrosPerSecond
  const MicrosPerDay: int := SecondsPerDay * MicrosPerSecond

  function BackupTime(b: Backup): int
  {
    Instant(b.timestamp)
  }

  /** Sort by timestamp, newest first; ties keep listing order. */
  function Newest(s: seq<Backup>): seq<Backup>
  {
    SortDesc(s, BackupTime)
  }

  // ---------------------------------------------------------------------
  // Parsing the listing

  /** The failing name, if any, is a listed name that matches but is not a
      date; every parsed record carries the timestamp its name parses to. */
  function ParseListing(files: seq<DriveFile>): (r: Parsing)
    ensures r.ParseFailed? ==>
      exists f :: f in files && f.name == r.name && ParseBackupTimestamp(f.name).BadDate?
    ensures r.ParsedAll? ==> |r.backups| <= |files|
    ensures r.ParsedAll? ==>
      forall b :: b in r.backups ==> ParseBackupTimestamp(b.name) == Parsed(b.timestamp)
  {
    if files == [] then ParsedAll([])
    else
      match ParseBackupTimestamp(files[0].name)
      case BadDate => ParseFailed(files[0].name)
      case NoMatch => ParseListing(files[1..])
      case Parsed(t) =>
        match ParseListing(files[1..])
        case ParseFailed(n) => ParseFailed(n)
        case ParsedAll(bs) => ParsedAll([Backup(files[0].id, files[0].name, t)] + bs)
  }

  predicate HasTimestamp(f: DriveFile)
  {
    ParseBackupTimestamp(f.name).Parsed?
  }

  function ToBackup(f: DriveFile): Backup
    requires HasTimestamp(f)
  {
    Backup(f.id, f.name, ParseBackupTimestamp(f.name).t)
  }

  // ---------------------------------------------------------------------
  // Cutoffs, bands and buckets

  /** `now - timedelta(...)` for the four windows (the monthly window is
      30 days per month); None when one of them is outside the datetime
      range, where Python raises `OverflowError`. */
  function CutoffsFor(now: int, p: Policy): (r: Option<Cutoffs>)
    ensures r.Some? ==>
      InRange(r.value.hourly) && InRange(r.value.daily) &&
      InRange(r.value.weekly) && InRange(r.value.monthly)
    ensures r.Some? ==>
      now - r.value.hourly == p.hourlyHours * MicrosPerHour &&
      now - r.value.daily == p.dailyDays * MicrosPerDay &&
      now - r.value.weekly == 7 * p.weeklyWeeks * MicrosPerDay &&
      now - r.value.monthly == 30 * p.monthlyMonths * MicrosPerDay
    ensures r.None? ==>
      !InRange(now - p.hourlyHours * MicrosPerHour) || !InRange(now - p.dailyDays * MicrosPerDay) ||
      !InRange(now - 7 * p.weeklyWeeks * MicrosPerDay) || !InRange(now - 30 * p.monthlyMonths * MicrosPerDay)
  {
    var c := Cutoffs(now - p.hourlyHours * MicrosPerHour,
                     now - p.dailyDays * MicrosPerDay,
                     now - p.weeklyWeeks * 7 * MicrosPerDay,
                     now - 30 * p.monthlyMonths * MicrosPerDay);
    if InRange(c.hourly) && InRange(c.daily) && InRange(c.weekly) && InRange(c.monthly)
    then Some(c) else None
  }

  /** The band boundaries do not cross. */
  predicate Ordered(c: Cutoffs)
  {
    c.hourly >= c.daily >= c.weekly >= c.monthly
  }

  /** `b['timestamp'] >= hourly_cutoff`. Every backup is hourly or lies
      in one of the four bucketed bands, and an hourly backup is not in
      the daily band. */
  predicate IsHourly(c: Cutoffs, b: Backup)
    ensures IsHourly(c, b) || InBand(c, Daily, b) || InBand(c, Weekly, b) ||
            InBand(c, Monthly, b) || InBand(c, Yearly, b)
    ensures IsHourly(c, b) ==> !InBand(c, Daily, b)
  {
    BackupTime(b) >= c.hourly
  }

  /** The band test of each bucketed tier. With ordered cutoffs a band
      backup is older than the hourly cutoff, and only the yearly band
      reaches past the monthly cutoff. */
  predicate InBand(c: Cutoffs, tier: Tier, b: Backup)
    ensures Ordered(c) && InBand(c, tier, b) ==> BackupTime(b) < c.hourly
    ensures Ordered(c) && InBand(c, tier, b) && tier != Yearly ==> BackupTime(b) >= c.monthly
  {
    var ts := BackupTime(b);
    match tier
    case Daily => ts < c.hourly && ts >= c.daily
    case Weekly => ts < c.daily && ts >= c.weekly
    case Monthly => ts < c.weekly && ts >= c.monthly
    case Yearly => ts < c.monthly
  }

  /** The key names the bucket's year, has the shape of its tier, and its
      week or month field is in range. */
  function KeyOf(tier: Tier, b: Backup): (k: BucketKey)
    ensures k.year == b.timestamp.year
    ensures (tier == Daily <==> k.DayKey?) && (tier == Weekly <==> k.WeekKey?) &&
            (tier == Monthly <==> k.MonthKey?) && (tier == Yearly <==> k.YearKey?)
    ensures k.WeekKey? ==> 0 <= k.week <= 53
    ensures k.MonthKey? || k.DayKey? ==> 1 <= k.month <= 12
  {
    var t := b.timestamp;
    match tier
    case Daily => DayKey(t.year, t.month, t.day)
    case Weekly => WeekKey(t.year, WeekNumber(t))
    case Monthly => MonthKey(t.year, t.month)
    case Yearly => YearKey(t.year)
  }

  /** Membership of bucket `k` of `tier`. */
  function InBucket(c: Cutoffs, tier: Tier, k: BucketKey): Backup -> bool
  {
    (b: Backup) => InBand(c, tier, b) && KeyOf(tier, b) == k
  }

  /** The first backup of bucket `k` in `s` (the source's `backups[0]`):
      a backup of `s` in the band with key `k`, and None exactly when no
      backup of `s` falls in that bucket. */
  function BucketHead(s: seq<Backup>, c: Cutoffs, tier: Tier, k: BucketKey): (h: Option<Backup>)
    ensures h.Some? ==> h.value in s && InBand(c, tier, h.value) && KeyOf(tier, h.value) == k
    ensures h.None? <==> forall b :: b in s ==> !(InBand(c, tier, b) && KeyOf(tier, b) == k)
  {
    FilterMembers(s, InBucket(c, tier, k));
    var bucket := Filter(s, InBucket(c, tier, k));
    if bucket == [] then None else Some(bucket[0])
  }

  function IdNotIn(ids: set<string>): Backup -> bool
  {
    (b: Backup) => b.id !in ids
  }

  function Ids(s: seq<Backup>): set<string>
  {
    set b | b in s :: b.id
  }

  // ---------------------------------------------------------------------
  // The classifier

  /** Ids of listed backups only, and nothing when no backup is recent. */
  function HourlyKept(s: seq<Backup>, c: Cutoffs): (r: set<string>)
    ensures r <= Ids(s)
    ensures (forall b :: b in s ==> !IsHourly(c, b)) ==> r == {}
  {
    set b | b in s && IsHourly(c, b) :: b.id
  }

  /** Every kept id is the id of a backup of the tier's band, so an empty
      band keeps nothing. */
  function TierKept(s: seq<Backup>, c: Cutoffs, tier: Tier): (r: set<string>)
    ensures r <= Ids(s)
    ensures forall id :: id in r ==> exists b :: b in s && InBand(c, tier, b) && b.id == id
    ensures (forall b :: b in s ==> !InBand(c, tier, b)) ==> r == {}
  {
    set b | b in s && InBand(c, tier, b) && BucketHead(s, c, tier, KeyOf(tier, b)) == Some(b) :: b.id
  }

  /** `files_to_keep`: listed ids only, holding every tier's keep set
      (the yearly one only when `KEEP_YEARLY`). */
  function KeepSet(s: seq<Backup>, c: Cutoffs, keepYearly: bool): (r: set<string>)
    ensures r <= Ids(s)
    ensures HourlyKept(s, c) <= r && TierKept(s, c, Daily) <= r &&
            TierKept(s, c, Weekly) <= r && TierKept(s, c, Monthly) <= r
    ensures keepYearly ==> TierKept(s, c, Yearly) <= r
  {
    HourlyKept(s, c) + TierKept(s, c, Daily) + TierKept(s, c, Weekly) +
    TierKept(s, c, Monthly) + (if keepYearly then TierKept(s, c, Yearly) else {})
  }

  /** `files_to_delete`: exactly the backups whose id is not kept. */
  function DeleteList(s: seq<Backup>, keep: set<string>): (r: seq<Backup>)
    ensures forall b :: b in r <==> b in s && b.id !in keep
    ensures |r| <= |s|
  {
    FilterMembers(s, IdNotIn(keep));
    Filter(s, IdNotIn(keep))
  }

  /** The decision of one cleanup: an empty listing deletes nothing; an
      invalid date aborts on a listed name; a plan never deletes a kept id
      and deletes only backups whose name carries their timestamp. */
  function Classify(now: int, p: Policy, files: seq<DriveFile>): (r: Outcome)
    ensures files == [] ==> r == Planned({}, [])
    ensures r.Aborted? && r.reason.InvalidDate? ==>
      exists f :: f in files && f.name == r.reason.name && ParseBackupTimestamp(f.name).BadDate?
    ensures r.Planned? ==>
      forall b :: b in r.delete ==> b.id !in r.keep && ParseBackupTimestamp(b.name) == Parsed(b.timestamp)
  {
    match ParseListing(files)
    case ParseFailed(n) => Aborted(InvalidDate(n))
    case ParsedAll(parsed) =>
      if parsed == [] then Planned({}, [])
      else
        match CutoffsFor(now, p)
        case None => Aborted(DateOverflow)
        case Some(c) =>
          var sorted := Newest(parsed);
          assert forall b :: b in sorted ==> b in multiset(parsed);
          var keep := KeepSet(sorted, c, p.keepYearly);
          Planned(keep, DeleteList(sorted, keep))
  }
}
