/** `encrypt_backup` and `main`: the run creates the dump, encrypts it when
    a key is configured, uploads the result, rotates the local directory
    and applies the Drive retention policy. The outcome of every external
    step (mysqldump and gzip, openssl, the existence check of its output,
    the removal of the plaintext, the upload) is an input; the two pruning
    stages run the models of LocalRotation and DriveCleanup. */
module Pipeline {
  import opened Optional
  import opened Sequences
  import opened Calendar
  import opened BackupName
  import opened Retention
  import opened LocalRotation
  import opened DriveCleanup

  /** How the external steps of `encrypt_backup` turn out: openssl exits 0,
      the output file exists afterwards, and `os.remove` of the plaintext
      does not raise. */
  datatype EncryptSteps = EncryptSteps(opensslOk: bool, outputExists: bool, removeOk: bool)

  /** `encrypt_backup` returns a path exactly when it is disabled or every
      step succeeds. */
  predicate EncryptSucceeds(enabled: bool, steps: EncryptSteps)
  {
    !enabled || (steps.opensslOk && steps.outputExists && steps.removeOk)
  }

  /** `encrypt_backup(file_path)`: the identity when encryption is disabled;
      otherwise `file_path + ".enc"`, or None when a step fails. The
      plaintext is removed only after openssl succeeded and its output
      exists, and only then can the call succeed. */
  method EncryptBackup(enabled: bool, path: string, steps: EncryptSteps)
    returns (result: Option<string>, plaintextRemoved: bool)
    ensures !enabled ==> result == Some(path) && !plaintextRemoved
    ensures enabled ==> (result.Some? <==> EncryptSucceeds(enabled, steps))
    ensures enabled && result.Some? ==> result.value == EncryptedPath(path)
    ensures plaintextRemoved <==> enabled && EncryptSucceeds(enabled, steps)
    ensures plaintextRemoved ==> steps.opensslOk && steps.outputExists
  {
    if !enabled {
      return Some(path), false;
    }
    var encryptedPath := EncryptedPath(path);
    if !steps.opensslOk {
      return None, false;
    }
    if !steps.outputExists {
      return None, false;
    }
    if !steps.removeOk {
      return None, false;
    }
    plaintextRemoved := true;
    result := Some(encryptedPath);
  }

  /** The stages of `main`, in order. */
  datatype Stage = Dump | Encrypt | Upload | LocalPrune | RemotePrune

  const AllStages: seq<Stage> := [Dump, Encrypt, Upload, LocalPrune, RemotePrune]

  /** Everything a run depends on: the start time (the dump's timestamp),
      whether a key is set, the outcomes of the external steps, and the
      inputs of the two pruning stages. */
  datatype RunInputs = RunInputs(
    startTime: ValidDateTime,
    encryptionEnabled: bool,
    dumpOk: bool,
    encrypt: EncryptSteps,
    uploadOk: bool,
    localDir: seq<LocalFile>,
    failingUnlinks: set<string>,
    now: int,
    policy: Policy,
    driveFiles: seq<DriveFile>,
    rejectedDeletes: set<string>)

  datatype RunResult = RunResult(
    exitCode: int,
    stages: seq<Stage>,
    uploaded: Option<string>,
    localRemoved: seq<LocalFile>,
    driveOutcome: Option<Outcome>,
    driveDeleted: seq<Backup>)

  /** How many stages a run reaches: it stops at the first of the first
      three stages that fails. */
  function StagesReached(inp: RunInputs): (n: nat)
    ensures 1 <= n <= |AllStages|
    ensures n == |AllStages| <==> inp.dumpOk && EncryptSucceeds(inp.encryptionEnabled, inp.encrypt) && inp.uploadOk
    ensures n < |AllStages| ==> n <= 3 && (n == 1 <==> !inp.dumpOk)
  {
    if !inp.dumpOk then 1
    else if !EncryptSucceeds(inp.encryptionEnabled, inp.encrypt) then 2
    else if !inp.uploadOk then 3
    else 5
  }

  /** `main`. `sys.exit(1)` after the first failing stage among dump,
      encrypt and upload; otherwise both pruning stages run, and they
      cannot fail the run (each catches its own exceptions). */
  method RunBackup(inp: RunInputs) returns (r: RunResult)
    ensures r.stages == AllStages[..StagesReached(inp)]
    ensures r.exitCode == (if StagesReached(inp) == |AllStages| then 0 else 1)
    ensures r.uploaded.Some? <==> StagesReached(inp) == |AllStages|
    ensures r.uploaded.Some? ==>
      r.uploaded.value == (if inp.encryptionEnabled then EncryptedPath(BackupPath(inp.startTime))
                           else BackupPath(inp.startTime))
    ensures r.localRemoved == (if r.uploaded.Some? then Rotation(inp.localDir, inp.failingUnlinks) else [])
    ensures r.driveOutcome == (if r.uploaded.Some? then Some(Classify(inp.now, inp.policy, inp.driveFiles)) else None)
    ensures r.driveDeleted ==
      (if r.uploaded.Some? && r.driveOutcome.value.Planned?
       then Filter(r.driveOutcome.value.delete, IdNotIn(inp.rejectedDeletes)) else [])
  {
    var stages := [Dump];
    if !inp.dumpOk {
      return RunResult(1, stages, None, [], None, []);
    }
    var backupPath := BackupPath(inp.startTime);

    stages := stages + [Encrypt];
    var finalPath, _ := EncryptBackup(inp.encryptionEnabled, backupPath, inp.encrypt);
    if finalPath.None? {
      return RunResult(1, stages, None, [], None, []);
    }

    stages := stages + [Upload];
    if !inp.uploadOk {
      return RunResult(1, stages, None, [], None, []);
    }

    stages := stages + [LocalPrune];
    var localRemoved := CleanupOldLocalBackups(inp.localDir, inp.failingUnlinks);

    stages := stages + [RemotePrune];
    var outcome, deleted := CleanupGoogleDriveBackups(inp.now, inp.policy, inp.driveFiles, inp.rejectedDeletes);

    r := RunResult(0, stages, finalPath, localRemoved, Some(outcome), deleted);
  }

  /** The run exits 1 exactly when the dump, the encryption or the upload
      fails, and then neither pruning stage runs; whatever the pruning
      stages do, they leave the exit status 0. */
  lemma {:induction false} ExitStatus(inp: RunInputs)
    ensures var n := StagesReached(inp);
      (n < |AllStages| <==>
        !inp.dumpOk || !EncryptSucceeds(inp.encryptionEnabled, inp.encrypt) || !inp.uploadOk) &&
      (n < |AllStages| ==> LocalPrune !in AllStages[..n] && RemotePrune !in AllStages[..n]) &&
      (n < |AllStages| ==> AllStages[n - 1] in {Dump, Encrypt, Upload})
  {
    var n := StagesReached(inp);
    if n < |AllStages| {
      assert n <= 3;
      assert AllStages[..n] <= AllStages[..3];
      assert AllStages[..3] == [Dump, Encrypt, Upload];
    }
  }

  /** The name the upload gives the file on Drive (`os.path.basename` of
      the final path) parses back to the dump's timestamp, encrypted or
      not, so the retention policy of later runs sees every upload. */
  lemma {:induction false} UploadIsRecognised(inp: RunInputs, uploaded: string)
    requires uploaded == (if inp.encryptionEnabled then EncryptedPath(BackupPath(inp.startTime))
                          else BackupPath(inp.startTime))
    ensures ParseBackupTimestamp(Basename(uploaded)) == Parsed(inp.startTime)
  {
    UploadedNameParses(inp.startTime);
  }
}
