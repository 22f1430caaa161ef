/** `cleanup_old_local_backups`: the files of `/backups` that match the
    glob `limesurvey_backup_*.sql.gz` are sorted by modification time,
    newest first, and every file after the first `MAX_LOCAL_BACKUPS` is
    unlinked. An unlink that raises ends the loop (the exception is caught
    once, around the whole function), so the files after it stay. The
    directory listing and the failing unlinks are inputs. */
module LocalRotation {
  import opened Sequences
  import opened Calendar
  import opened BackupName

  const MaxLocalBackups: nat := 5

  /** A file of the backup directory: its name and `st_mtime`. */
  datatype LocalFile = LocalFile(name: string, mtime: int)

  function MTime(f: LocalFile): int
  {
    f.mtime
  }

  /** `s` ends with `suffix`. */
  predicate EndsWith(s: string, suffix: string)
  {
    |suffix| <= |s| && s[|s| - |suffix|..] == suffix
  }

  /** The glob `limesurvey_backup_*.sql.gz`: the prefix, then anything
      (possibly nothing), then `.sql.gz`. A name ending in `.enc` never
      matches. */
  predicate MatchesGlob(name: string)
    ensures MatchesGlob(name) ==> !EndsWith(name, EncryptedExtension)
  {
    assert |Extension| <= |name| ==> name[|name| - |Extension|..][6] == name[|name| - 1];
    assert |EncryptedExtension| <= |name| ==> name[|name| - |EncryptedExtension|..][3] == name[|name| - 1];
    |Prefix| + |Extension| <= |name| &&
    name[..|Prefix|] == Prefix && EndsWith(name, Extension)
  }

  function IsCandidate(f: LocalFile): bool
  {
    MatchesGlob(f.name)
  }

  /** The matching files, newest first (`sorted(..., reverse=True)` is
      stable, so equal mtimes keep directory order): newest first, a
      permutation of the matching files, each of them in the directory. */
  function Candidates(dir: seq<LocalFile>): (c: seq<LocalFile>)
    ensures IsSortedDesc(c, MTime)
    ensures multiset(c) == multiset(Filter(dir, IsCandidate))
    ensures forall f :: f in c ==> f in dir && IsCandidate(f)
  {
    var m := Filter(dir, IsCandidate);
    SortIsSorted(m, MTime);
    FilterMembers(dir, IsCandidate);
    assert forall f :: f in SortDesc(m, MTime) ==> f in multiset(m);
    SortDesc(m, MTime)
  }

  /** The files unlinked from `s`, in order, until one unlink fails. */
  function UnlinkedUntilFailure(s: seq<LocalFile>, failing: set<string>): (r: seq<LocalFile>)
    ensures |r| <= |s|
  {
    if s == [] || s[0].name in failing then []
    else [s[0]] + UnlinkedUntilFailure(s[1..], failing)
  }

  /** The files the rotation removes: nothing when at most five files
      match, and otherwise a run of the files right after the five newest. */
  function Rotation(dir: seq<LocalFile>, failing: set<string>): (r: seq<LocalFile>)
    ensures |Candidates(dir)| <= MaxLocalBackups ==> r == []
    ensures forall j :: 0 <= j < |r| ==>
      MaxLocalBackups + j < |Candidates(dir)| && r[j] == Candidates(dir)[MaxLocalBackups + j]
  {
    var c := Candidates(dir);
    if |c| > MaxLocalBackups then
      UnlinkedIsPrefix(c[MaxLocalBackups..], failing);
      UnlinkedUntilFailure(c[MaxLocalBackups..], failing)
    else []
  }

  lemma {:induction false} UnlinkedPrefix(s: seq<LocalFile>, failing: set<string>, i: nat)
    requires i <= |s|
    requires forall j :: 0 <= j < i ==> s[j].name !in failing
    ensures UnlinkedUntilFailure(s, failing) == s[..i] + UnlinkedUntilFailure(s[i..], failing)
  {
    if i > 0 {
      assert s[1..][..i - 1] == s[1..i] && s[1..][i - 1..] == s[i..];
      UnlinkedPrefix(s[1..], failing, i - 1);
      assert s[..i] == [s[0]] + s[1..i];
    }
  }

  /** The rotation loop: unlink `backup_files[MAX_LOCAL_BACKUPS:]` one by
      one, stopping at the first unlink that raises. */
  method CleanupOldLocalBackups(dir: seq<LocalFile>, failing: set<string>) returns (removed: seq<LocalFile>)
    ensures removed == Rotation(dir, failing)
  {
    var backupFiles := Candidates(dir);
    removed := [];
    if |backupFiles| > MaxLocalBackups {
      var tail := backupFiles[MaxLocalBackups..];
      var i := 0;
      while i < |tail|
        invariant 0 <= i <= |tail|
        invariant removed == tail[..i]
        invariant forall j :: 0 <= j < i ==> tail[j].name !in failing
      {
        if tail[i].name in failing {
          UnlinkedPrefix(tail, failing, i);
          assert tail[..i] + [] == tail[..i];
          return;
        }
        assert tail[..i + 1] == tail[..i] + [tail[i]];
        removed := removed + [tail[i]];
        i := i + 1;
      }
      UnlinkedPrefix(tail, failing, i);
      assert tail[..i] + [] == tail[..i];
    }
  }

  // ---------------------------------------------------------------------
  // Properties

  lemma {:induction false} UnlinkedIsPrefix(s: seq<LocalFile>, failing: set<string>)
    ensures var r := UnlinkedUntilFailure(s, failing);
      r == s[..|r|] &&
      (forall j :: 0 <= j < |r| ==> s[j].name !in failing) &&
      (|r| < |s| ==> s[|r|].name in failing)
  {
    if s != [] && s[0].name !in failing {
      UnlinkedIsPrefix(s[1..], failing);
    }
  }

  /** At most five matching files: nothing is removed. Otherwise the
      removed files are a prefix of the files after the five newest, all
      of them when no unlink fails, and an unremoved file after the five
      newest means an unlink failed. */
  lemma {:induction false} RotationRemovesTail(dir: seq<LocalFile>, failing: set<string>)
    ensures var c, r := Candidates(dir), Rotation(dir, failing);
      (|c| <= MaxLocalBackups ==> r == []) &&
      (|c| > MaxLocalBackups ==>
        r == c[MaxLocalBackups..MaxLocalBackups + |r|] &&
        (|r| < |c| - MaxLocalBackups ==> c[MaxLocalBackups + |r|].name in failing)) &&
      (failing == {} && |c| > MaxLocalBackups ==> r == c[MaxLocalBackups..])
  {
    var c := Candidates(dir);
    if |c| > MaxLocalBackups {
      var t := c[MaxLocalBackups..];
      UnlinkedIsPrefix(t, failing);
      var r := Rotation(dir, failing);
      assert t[..|r|] == c[MaxLocalBackups..MaxLocalBackups + |r|];
    }
  }

  /** Every removed file is a matching file of the directory. */
  lemma {:induction false} RemovedAreMatching(dir: seq<LocalFile>, failing: set<string>)
    ensures forall f :: f in Rotation(dir, failing) ==> f in dir && IsCandidate(f)
  {
    var c, r := Candidates(dir), Rotation(dir, failing);
    if |c| > MaxLocalBackups {
      RotationRemovesTail(dir, failing);
      FilterMembers(dir, IsCandidate);
      assert multiset(c) == multiset(Filter(dir, IsCandidate));
      forall f | f in r ensures f in dir && IsCandidate(f) {
        var j :| 0 <= j < |r| && r[j] == f;
        assert c[MaxLocalBackups + j] == f;
        assert f in multiset(Filter(dir, IsCandidate));
        var m :| 0 <= m < |Filter(dir, IsCandidate)| && Filter(dir, IsCandidate)[m] == f;
      }
    }
  }

  /** No removed file is newer than any of the five kept newest matching
      files. */
  lemma {:induction false} RemovedAreOldest(dir: seq<LocalFile>, failing: set<string>)
    ensures var c, r := Candidates(dir), Rotation(dir, failing);
      forall f, k :: f in r && k in c[..MaxLocalBackups] ==> k.mtime >= f.mtime
  {
    var c, r := Candidates(dir), Rotation(dir, failing);
    if |c| > MaxLocalBackups {
      RotationRemovesTail(dir, failing);
      SortIsSorted(Filter(dir, IsCandidate), MTime);
      forall f, k | f in r && k in c[..MaxLocalBackups] ensures k.mtime >= f.mtime {
        var i :| 0 <= i < |r| && r[i] == f;
        assert c[MaxLocalBackups + i] == f;
        var j :| 0 <= j < MaxLocalBackups && c[..MaxLocalBackups][j] == k;
        assert c[j] == k;
      }
    }
  }

  /** With no failing unlink, the kept matching files and the removed ones
      together are exactly the matching files of the directory. */
  lemma {:induction false} RotationPartitions(dir: seq<LocalFile>)
    ensures var c, r := Candidates(dir), Rotation(dir, {});
      |c| > MaxLocalBackups ==>
        multiset(c[..MaxLocalBackups]) + multiset(r) == multiset(Filter(dir, IsCandidate))
  {
    var c := Candidates(dir);
    if |c| > MaxLocalBackups {
      RotationRemovesTail(dir, {});
      assert c == c[..MaxLocalBackups] + c[MaxLocalBackups..];
    }
  }

  /** Encrypted artifacts (`.sql.gz.enc`) never match the glob, so the
      rotation never removes them; every dump the script writes matches. */
  lemma {:induction false} EncryptedNeverRotated(dir: seq<LocalFile>, failing: set<string>, f: LocalFile)
    requires EndsWith(f.name, EncryptedExtension)
    ensures !IsCandidate(f) && f !in Rotation(dir, failing)
  {
    var n := f.name;
    assert n[|n| - 1] == EncryptedExtension[3];
    assert |n| >= |Extension| ==> n[|n| - |Extension|..][6] == n[|n| - 1];
    RemovedAreMatching(dir, failing);
  }

  lemma {:induction false} DumpNamesRotate(t: DateTime)
    requires IsValid(t)
    ensures MatchesGlob(BackupFileName(t))
    ensures !MatchesGlob(BackupFileName(t) + EncryptedExtension)
  {
    var n := BackupFileName(t);
    NameLayout(t, "");
    assert n + "" == n;
    assert n[|n| - |Extension|..] == n[33..40];
    var e := n + EncryptedExtension;
    assert e[|e| - 1] == 'c';
  }
}
