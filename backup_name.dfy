/** The backup artifact name: `create_database_backup` writes
    `limesurvey_backup_YYYYMMDD_HHMMSS.sql.gz` into `/backups`,
    `encrypt_backup` appends `.enc`, the upload keeps the base name, and
    `parse_backup_timestamp` reads the timestamp back with an unanchored
    regular-expression search followed by `strptime`. */
module BackupName {
  import opened Optional
  import opened Calendar

  const Prefix: string := "limesurvey_backup_"
  const Extension: string := ".sql.gz"
  const EncryptedExtension: string := ".enc"
  const BackupDir: string := "/backups"

  /** Length of a match of `limesurvey_backup_(\d{8})_(\d{6})\.sql\.gz`. */
  const MatchLength: nat := 40

  predicate IsDigit(c: char)
  {
    '0' <= c <= '9'
  }

  predicate AllDigits(s: string)
  {
    forall i :: 0 <= i < |s| ==> IsDigit(s[i])
  }

  function DigitChar(d: int): (c: char)
    requires 0 <= d < 10
    ensures IsDigit(c)
  {
    ('0' as int + d) as char
  }

  function DigitValue(c: char): (d: int)
    requires IsDigit(c)
    ensures 0 <= d < 10
  {
    c as int - '0' as int
  }

  function Pow10(w: nat): (p: nat)
    ensures p >= 1
  {
    if w == 0 then 1 else 10 * Pow10(w - 1)
  }

  /** `n` in exactly `w` decimal digits with leading zeros, as `%m`, `%d`,
      `%H`, `%M` and `%S` write a field (and `%Y` a four-digit year). */
  function Pad(n: nat, w: nat): (s: string)
    requires n < Pow10(w)
    ensures |s| == w && AllDigits(s)
  {
    if w == 0 then "" else Pad(n / 10, w - 1) + [DigitChar(n % 10)]
  }

  /** The two-digit number at `s[k..k + 2]`, as `strptime` reads `%m`,
      `%d`, `%H`, `%M` and `%S`. */
  function TwoDigits(s: string, k: nat): (n: int)
    requires k + 2 <= |s| && IsDigit(s[k]) && IsDigit(s[k + 1])
    ensures 0 <= n < 100
  {
    10 * DigitValue(s[k]) + DigitValue(s[k + 1])
  }

  /** The four-digit number at `s[k..k + 4]`, as `%Y` reads it. */
  function FourDigits(s: string, k: nat): (n: int)
    requires k + 4 <= |s| && forall j :: k <= j < k + 4 ==> IsDigit(s[j])
    ensures 0 <= n < 10000
  {
    100 * TwoDigits(s, k) + TwoDigits(s, k + 2)
  }

  /** `strftime('%Y%m%d_%H%M%S')`. */
  function Timestamp(t: DateTime): (s: string)
    requires IsValid(t)
    ensures |s| == 15
    ensures AllDigits(s[..8]) && s[8] == '_' && AllDigits(s[9..])
  {
    Pad(t.year, 4) + Pad(t.month, 2) + Pad(t.day, 2) + "_" +
    Pad(t.hour, 2) + Pad(t.minute, 2) + Pad(t.second, 2)
  }

  /** The file name `create_database_backup` gives the dump: exactly as
      long as a match of the parsing pattern, the prefix, the timestamp and
      `.sql.gz`. */
  function BackupFileName(t: DateTime): (n: string)
    requires IsValid(t)
    ensures |n| == MatchLength
    ensures n[..18] == Prefix && n[18..33] == Timestamp(t) && n[33..] == Extension
  {
    Prefix + Timestamp(t) + Extension
  }

  /** `os.path.join(BACKUP_DIR, name)`: a path in `/backups` whose base
      name is the dump's file name. */
  function BackupPath(t: DateTime): (p: string)
    requires IsValid(t)
    ensures |p| == |BackupDir| + 1 + MatchLength && p[..|BackupDir| + 1] == BackupDir + "/"
    ensures Basename(p) == BackupFileName(t)
  {
    NoSlashInName(t, "");
    assert BackupFileName(t) + "" == BackupFileName(t);
    BasenameAfterSlash(BackupDir, BackupFileName(t));
    BackupDir + "/" + BackupFileName(t)
  }

  /** The output path `encrypt_backup` chooses: the same file with `.enc`
      appended, so its base name is the plaintext's base name plus `.enc`. */
  function EncryptedPath(path: string): (e: string)
    ensures |e| == |path| + |EncryptedExtension| && e[..|path|] == path
    ensures Basename(e) == Basename(path) + EncryptedExtension
  {
    BasenameAppend(path, EncryptedExtension);
    path + EncryptedExtension
  }

  /** Appending a piece without `/` appends it to the base name. */
  lemma {:induction false} BasenameAppend(path: string, w: string)
    requires '/' !in w
    ensures Basename(path + w) == Basename(path) + w
    decreases |w|
  {
    if w != [] {
      var v := w[..|w| - 1];
      assert w == v + [w[|w| - 1]];
      assert '/' !in v by {
        forall k | 0 <= k < |v| ensures v[k] != '/' {
          assert v[k] == w[k];
        }
      }
      BasenameAppend(path, v);
      var p := path + w;
      assert p[..|p| - 1] == path + v;
      assert p[|p| - 1] == w[|w| - 1];
    } else {
      assert path + w == path;
    }
  }

  /** `os.path.basename`: everything after the last `/`. */
  function Basename(path: string): (b: string)
    ensures '/' !in b
  {
    if path == [] || path[|path| - 1] == '/' then []
    else Basename(path[..|path| - 1]) + [path[|path| - 1]]
  }

  /** The regular expression matches `s` at position `i`; the fourteen
      positions of its two groups then hold digits. */
  predicate MatchesAt(s: string, i: nat)
    ensures MatchesAt(s, i) ==>
      i + MatchLength <= |s| &&
      (forall k :: i + 18 <= k < i + 26 ==> IsDigit(s[k])) &&
      (forall k :: i + 27 <= k < i + 33 ==> IsDigit(s[k]))
  {
    assert i + MatchLength <= |s| ==> forall k :: i + 18 <= k < i + 26 ==> s[k] == s[i + 18..i + 26][k - i - 18];
    assert i + MatchLength <= |s| ==> forall k :: i + 27 <= k < i + 33 ==> s[k] == s[i + 27..i + 33][k - i - 27];
    i + MatchLength <= |s| &&
    s[i..i + 18] == Prefix &&
    AllDigits(s[i + 18..i + 26]) &&
    s[i + 26] == '_' &&
    AllDigits(s[i + 27..i + 33]) &&
    s[i + 33..i + 40] == Extension
  }

  /** `re.search` from position `i`: the leftmost match, if any. */
  function SearchFrom(s: string, i: nat): (r: Option<nat>)
    ensures r.Some? ==> i <= r.value && MatchesAt(s, r.value) &&
                        forall j :: i <= j < r.value ==> !MatchesAt(s, j)
    ensures r.None? ==> forall j: nat :: i <= j ==> !MatchesAt(s, j)
    decreases |s| - i
  {
    if i + MatchLength > |s| then None
    else if MatchesAt(s, i) then Some(i)
    else SearchFrom(s, i + 1)
  }

  /** The fields `strptime` reads from the two digit groups of a match:
      `%Y` takes four digits and every other field two, so each field is a
      number of that many digits. */
  function FieldsAt(s: string, i: nat): (t: DateTime)
    requires MatchesAt(s, i)
    ensures 0 <= t.year < 10000
    ensures 0 <= t.month < 100 && 0 <= t.day < 100
    ensures 0 <= t.hour < 100 && 0 <= t.minute < 100 && 0 <= t.second < 100
  {
    DateTime(FourDigits(s, i + 18), TwoDigits(s, i + 22), TwoDigits(s, i + 24),
             TwoDigits(s, i + 27), TwoDigits(s, i + 29), TwoDigits(s, i + 31))
  }

  /** Outcome of `parse_backup_timestamp`: no match (None), a datetime, or
      a match whose digits `strptime` rejects with `ValueError`. */
  datatype ParseResult = NoMatch | Parsed(t: DateTime) | BadDate

  function ParseBackupTimestamp(name: string): (r: ParseResult)
    ensures r.Parsed? ==> IsValid(r.t)
  {
    match SearchFrom(name, 0)
    case None => NoMatch
    case Some(i) =>
      var t := FieldsAt(name, i);
      if IsValid(t) then Parsed(t) else BadDate
  }

  /** The parse reads the leftmost match: no match anywhere gives NoMatch;
      otherwise the fields of the leftmost match decide between a datetime
      and a date `strptime` rejects. */
  lemma {:induction false} ParseIsLeftmostMatch(name: string)
    ensures var r := ParseBackupTimestamp(name);
      (r.NoMatch? <==> forall j: nat :: !MatchesAt(name, j)) &&
      (!r.NoMatch? ==>
        exists i: nat :: MatchesAt(name, i) && (forall j :: 0 <= j < i ==> !MatchesAt(name, j)) &&
          (r.Parsed? <==> IsValid(FieldsAt(name, i))) &&
          (r.Parsed? ==> r.t == FieldsAt(name, i)))
  {
  }

  // ---------------------------------------------------------------------
  // Round trip

  lemma {:induction false} DigitRoundTrip(d: int)
    requires 0 <= d < 10
    ensures DigitValue(DigitChar(d)) == d
  {
  }

  /** Reading back a padded two-digit field gives the number. */
  lemma {:induction false} TwoDigitsOfPad(n: nat, s: string, k: nat)
    requires n < 100 && k + 2 <= |s| && s[k..k + 2] == Pad(n, 2)
    ensures IsDigit(s[k]) && IsDigit(s[k + 1]) && TwoDigits(s, k) == n
  {
    assert Pad(n, 2) == [DigitChar(n / 10), DigitChar(n % 10)] by {
      assert Pad(n / 10, 1) == [DigitChar(n / 10 % 10)];
    }
    assert s[k] == s[k..k + 2][0] && s[k + 1] == s[k..k + 2][1];
    DigitRoundTrip(n / 10);
    DigitRoundTrip(n % 10);
  }

  lemma {:induction false} PadFour(n: nat)
    requires n < 10000
    ensures Pad(n, 4) == [DigitChar(n / 1000), DigitChar(n / 100 % 10),
                          DigitChar(n / 10 % 10), DigitChar(n % 10)]
  {
    DigitsSplit(n);
    assert Pad(n / 10, 3) == Pad(n / 100, 2) + [DigitChar(n / 10 % 10)];
    assert Pad(n / 100, 2) == Pad(n / 1000, 1) + [DigitChar(n / 100 % 10)];
    assert Pad(n / 1000, 1) == [DigitChar(n / 1000 % 10)];
  }

  lemma {:induction false} DigitsSplit(n: nat)
    requires n < 10000
    ensures n / 10 / 10 == n / 100 && n / 100 / 10 == n / 1000 && n / 1000 % 10 == n / 1000
    ensures 1000 * (n / 1000) + 100 * (n / 100 % 10) + 10 * (n / 10 % 10) + n % 10 == n
  {
  }

  /** Reading back a padded four-digit year gives the number. */
  lemma {:induction false} FourDigitsOfPad(n: nat, s: string, k: nat)
    requires n < 10000 && k + 4 <= |s| && s[k..k + 4] == Pad(n, 4)
    ensures (forall j :: k <= j < k + 4 ==> IsDigit(s[j])) && FourDigits(s, k) == n
  {
    PadFour(n);
    var w := s[k..k + 4];
    assert s[k] == w[0] && s[k + 1] == w[1] && s[k + 2] == w[2] && s[k + 3] == w[3];
    DigitRoundTrip(n / 1000);
    DigitRoundTrip(n / 100 % 10);
    DigitRoundTrip(n / 10 % 10);
    DigitRoundTrip(n % 10);
    DigitsSplit(n);
  }

  /** The fields sit at fixed offsets of the timestamp. */
  lemma {:induction false} TimestampLayout(t: DateTime)
    requires IsValid(t)
    ensures var ts := Timestamp(t);
      ts[..4] == Pad(t.year, 4) && ts[4..6] == Pad(t.month, 2) &&
      ts[6..8] == Pad(t.day, 2) && ts[8] == '_' &&
      ts[9..11] == Pad(t.hour, 2) && ts[11..13] == Pad(t.minute, 2) &&
      ts[13..15] == Pad(t.second, 2)
  {
    var y, mo, d := Pad(t.year, 4), Pad(t.month, 2), Pad(t.day, 2);
    var h, mi, se := Pad(t.hour, 2), Pad(t.minute, 2), Pad(t.second, 2);
    var p1 := y + mo;
    var p2 := p1 + d;
    var p3 := p2 + "_";
    var p4 := p3 + h;
    var p5 := p4 + mi;
    var ts := p5 + se;
    assert ts == Timestamp(t);
    assert ts[13..15] == se && ts[..13] == p5;
    assert p5[11..13] == mi && p5[..11] == p4;
    assert p4[9..11] == h && p4[..9] == p3;
    assert p3[8] == '_' && p3[..8] == p2;
    assert p2[6..8] == d && p2[..6] == p1;
    assert p1[4..6] == mo && p1[..4] == y;
  }

  /** The timestamp digits sit at fixed offsets of the name. */
  lemma {:induction false} NameLayout(t: DateTime, rest: string)
    requires IsValid(t)
    ensures var s := BackupFileName(t) + rest;
      |s| == MatchLength + |rest| &&
      s[..18] == Prefix &&
      s[18..22] == Pad(t.year, 4) && s[22..24] == Pad(t.month, 2) &&
      s[24..26] == Pad(t.day, 2) && s[26] == '_' &&
      s[27..29] == Pad(t.hour, 2) && s[29..31] == Pad(t.minute, 2) &&
      s[31..33] == Pad(t.second, 2) && s[33..40] == Extension
  {
    var ts := Timestamp(t);
    TimestampLayout(t);
    var n := Prefix + ts;
    var s := n + Extension + rest;
    assert s == BackupFileName(t) + rest;
    assert s[..33] == n && s[33..40] == Extension;
    assert n[..18] == Prefix && n[18..] == ts;
    SlicesOfSuffix(s, 18, 33, ts);
  }

  /** Slices of a piece `w` at offset `i` of `s` are slices of `s`. */
  lemma {:induction false} SlicesOfSuffix(s: string, i: nat, j: nat, w: string)
    requires i <= j <= |s| && s[i..j] == w && |w| == 15
    ensures s[i..i + 4] == w[..4] && s[i + 4..i + 6] == w[4..6] &&
            s[i + 6..i + 8] == w[6..8] && s[i + 8] == w[8] &&
            s[i + 9..i + 11] == w[9..11] && s[i + 11..i + 13] == w[11..13] &&
            s[i + 13..i + 15] == w[13..15]
  {
  }

  /** Parsing the name built from a valid timestamp gives that timestamp
      back, whatever follows the name (in particular `.enc`). */
  lemma {:induction false} ParseBackupFileName(t: DateTime, rest: string)
    requires IsValid(t)
    ensures ParseBackupTimestamp(BackupFileName(t) + rest) == Parsed(t)
  {
    var s := BackupFileName(t) + rest;
    NameLayout(t, rest);
    assert s[18..26] == Pad(t.year, 4) + Pad(t.month, 2) + Pad(t.day, 2);
    assert s[27..33] == Pad(t.hour, 2) + Pad(t.minute, 2) + Pad(t.second, 2);
    assert MatchesAt(s, 0);
    assert SearchFrom(s, 0) == Some(0);
    FourDigitsOfPad(t.year, s, 18);
    TwoDigitsOfPad(t.month, s, 22);
    TwoDigitsOfPad(t.day, s, 24);
    TwoDigitsOfPad(t.hour, s, 27);
    TwoDigitsOfPad(t.minute, s, 29);
    TwoDigitsOfPad(t.second, s, 31);
    assert FieldsAt(s, 0) == t;
  }

  /** The round trip for both artifact names the script produces. */
  lemma {:induction false} NameRoundTrip(t: DateTime)
    requires IsValid(t)
    ensures ParseBackupTimestamp(BackupFileName(t)) == Parsed(t)
    ensures ParseBackupTimestamp(BackupFileName(t) + EncryptedExtension) == Parsed(t)
  {
    ParseBackupFileName(t, "");
    assert BackupFileName(t) + "" == BackupFileName(t);
    ParseBackupFileName(t, EncryptedExtension);
  }

  lemma {:induction false} BasenameAfterSlash(dir: string, name: string)
    requires '/' !in name
    ensures Basename(dir + "/" + name) == name
    decreases |name|
  {
    var p := dir + "/" + name;
    if name == [] {
      assert p[|p| - 1] == '/';
    } else {
      var init := name[..|name| - 1];
      assert p[..|p| - 1] == dir + "/" + init;
      assert '/' !in init by {
        forall k | 0 <= k < |init| ensures init[k] != '/' { assert init[k] == name[k]; }
      }
      BasenameAfterSlash(dir, init);
      assert name == init + [name[|name| - 1]];
    }
  }

  lemma {:induction false} NoSlashInName(t: DateTime, rest: string)
    requires IsValid(t) && '/' !in rest
    ensures '/' !in BackupFileName(t) + rest
  {
    var s := BackupFileName(t) + rest;
    NameLayout(t, rest);
    forall k | 0 <= k < |s| ensures s[k] != '/' {
      if k < 18 { assert s[k] == Prefix[k]; }
      else if k < 26 { assert s[k] == s[18..26][k - 18]; }
      else if 26 < k < 33 { assert s[k] == s[27..33][k - 27]; }
      else if 33 <= k < 40 { assert s[k] == Extension[k - 33]; }
      else if k >= 40 { assert s[k] == rest[k - 40]; }
    }
  }

  /** The Drive name of an uploaded artifact (`os.path.basename` of the
      dump path, encrypted or not) parses back to the dump's timestamp. */
  lemma {:induction false} UploadedNameParses(t: DateTime)
    requires IsValid(t)
    ensures Basename(BackupPath(t)) == BackupFileName(t)
    ensures Basename(EncryptedPath(BackupPath(t))) == BackupFileName(t) + EncryptedExtension
    ensures ParseBackupTimestamp(Basename(BackupPath(t))) == Parsed(t)
    ensures ParseBackupTimestamp(Basename(EncryptedPath(BackupPath(t)))) == Parsed(t)
  {
    NoSlashInName(t, "");
    assert BackupFileName(t) + "" == BackupFileName(t);
    BasenameAfterSlash(BackupDir, BackupFileName(t));
    NoSlashInName(t, EncryptedExtension);
    assert EncryptedPath(BackupPath(t)) == BackupDir + "/" + (BackupFileName(t) + EncryptedExtension);
    BasenameAfterSlash(BackupDir, BackupFileName(t) + EncryptedExtension);
    NameRoundTrip(t);
  }
}
