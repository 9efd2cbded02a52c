/** The keyring lifecycle of `keyring_facard`: presence check, generation in
    a scratch directory, persisting caller content, persisting a secret with
    the tool, and removal, all over an abstract filesystem. The external tool
    is a record of what one run of it did. The central guarantee is that no
    operation other than removal ever changes a keyring that is already on
    disk. */
module Lifecycle {
  import opened Results
  import opened PyStr
  import opened Registry
  import opened Authtool
  import opened KeyringFormat

  /** The cluster facts a keyring object reads from its model. */
  datatype ClusterModel = ClusterModel(clusterName: string, cephVersion: Version)

  /** A keyring object: the role its subclass fixes in `key_type`, and the
      cluster model it was built with. */
  datatype Keyring = Keyring(keyType: Role, model: ClusterModel)

  /** `keyring_path_get`: the cluster name can be read back from the path. */
  function PathGet(k: Keyring): (p: string)
    ensures ClusterOfPath(k.keyType, p) == Some(k.model.clusterName)
  {
    ClusterOfKeyringPath(k.keyType, k.model.clusterName);
    KeyringPath(k.keyType, k.model.clusterName)
  }

  /** `get_arguments_create` of this keyring object. */
  function ArgumentsCreate(k: Keyring, path: string, secret: Option<string>): seq<string> {
    CreateArgs(k.keyType, k.model.cephVersion, path, secret)
  }

  /** The filesystem as the keyring code sees it: regular files with their
      text, and the scratch directories that currently exist. */
  datatype FileSystem = FileSystem(files: map<string, string>, tempDirs: set<string>)

  /** What one run of `ceph-authtool` did: its exit status and captured
      streams, and the keyring text it left at its `--create-keyring` target,
      if any. */
  datatype ToolRun = ToolRun(retcode: int, stdout: string, stderr: string, output: Option<string>)

  /** The errors the keyring code raises. A generation failure carries the
      attempted command line and what the tool reported. */
  datatype Error =
    | GenerationFailed(command: seq<string>, retcode: int, stdout: string, stderr: string)
    | ReadFailed(path: string)
    | InvalidSecret
    | DeleteFailed

  /** The state after an operation, what it returned or raised, and the
      command lines it handed to the tool, in order. */
  datatype Step<T> = Step(fs: FileSystem, result: Result<T, Error>, invoked: seq<seq<string>>)

  /** `present`: a regular file exists at the resolved path, that is, some
      file on disk is this role's keyring for this cluster. */
  function Present(k: Keyring, fs: FileSystem): (b: bool)
    ensures b <==> exists p :: p in fs.files && ClusterOfPath(k.keyType, p) == Some(k.model.clusterName)
  {
    PathGet(k) in fs.files
  }

  /** `p` lies strictly inside directory `d`. */
  predicate Under(p: string, d: string) {
    |p| > |d| && p[..|d|] == d && p[|d|] == '/'
  }

  /** What `tempfile.mkdtemp` guarantees of the directory it returns: a new
      name, not ending in a separator, with nothing inside it. */
  predicate FreshTempDir(fs: FileSystem, d: string) {
    && |d| > 0 && d[|d| - 1] != '/'
    && d !in fs.tempDirs
    && d !in fs.files
    && (forall f :: f in fs.files ==> !Under(f, d))
    && (forall t :: t in fs.tempDirs ==> !Under(t, d))
  }

  /** `os.path.join(tmpd, "keyring")`. */
  function TempKeyPath(d: string): (p: string)
    requires |d| > 0 && d[|d| - 1] != '/'
    ensures Under(p, d)
  {
    PathJoinParts(d, "keyring");
    PathJoin(d, "keyring")
  }

  /** The two maps agree on every path except `p`. */
  predicate AgreeExcept(a: map<string, string>, b: map<string, string>, p: string) {
    a - {p} == b - {p}
  }

  /** Runs the tool on a command line: it leaves its output, if any, at the
      path after `--create-keyring` and touches nothing else. */
  function RunTool(fs: FileSystem, args: seq<string>, run: ToolRun): (fs': FileSystem)
    requires |args| >= 5
    ensures fs'.tempDirs == fs.tempDirs
    ensures AgreeExcept(fs'.files, fs.files, args[4])
    ensures run.output.Some? ==> args[4] in fs'.files && fs'.files[args[4]] == run.output.value
    ensures run.output.None? ==> fs' == fs
  {
    if run.output.Some? then fs.(files := fs.files[args[4] := run.output.value]) else fs
  }

  /** `shutil.rmtree(d)`: the directory and everything inside it go. */
  function RemoveTree(fs: FileSystem, d: string): (fs': FileSystem)
    ensures d !in fs'.tempDirs
    ensures forall f :: f in fs'.files <==> f in fs.files && !Under(f, d)
    ensures forall f :: f in fs'.files ==> fs'.files[f] == fs.files[f]
    ensures forall t :: t in fs'.tempDirs <==> t in fs.tempDirs && t != d && !Under(t, d)
  {
    FileSystem(
      map f | f in fs.files && !Under(f, d) :: fs.files[f],
      set t | t in fs.tempDirs && t != d && !Under(t, d))
  }

  /** The error raised when the tool exits non-zero. */
  function Failure(args: seq<string>, run: ToolRun): Error {
    GenerationFailed(args, run.retcode, run.stdout, run.stderr)
  }

  /** `create`: an existing keyring is read back and returned, and the tool is
      not run. Otherwise a key is generated into a scratch directory, read
      from there and returned; the scratch directory is removed on every
      path, so the filesystem ends as it began and the resolved path is
      never written. Every read is a Python 3 text-mode read, so line
      endings come back as `\n` (`ReadText`). */
  function Create(k: Keyring, fs: FileSystem, secret: Option<string>, tmpd: string, run: ToolRun): (s: Step<string>)
    requires FreshTempDir(fs, tmpd)
    ensures tmpd !in s.fs.tempDirs && forall f :: f in s.fs.files ==> !Under(f, tmpd)
    ensures Present(k, fs) ==> s == Step(fs, Ok(ReadText(fs.files[PathGet(k)])), [])
    ensures !Present(k, fs) ==>
      && s.fs == fs
      && s.invoked == [ArgumentsCreate(k, TempKeyPath(tmpd), secret)]
      && (run.retcode != 0 ==> s.result == Err(Failure(s.invoked[0], run)))
      && (run.retcode == 0 && run.output.Some? ==> s.result == Ok(ReadText(run.output.value)))
      && (run.retcode == 0 && run.output.None? ==> s.result == Err(ReadFailed(TempKeyPath(tmpd))))
  {
    var p := PathGet(k);
    if p in fs.files then
      Step(fs, Ok(ReadText(fs.files[p])), [])
    else
      var staged := fs.(tempDirs := fs.tempDirs + {tmpd});
      var keyPath := TempKeyPath(tmpd);
      var args := ArgumentsCreate(k, keyPath, secret);
      var ran := RunTool(staged, args, run);
      var result: Result<string, Error> :=
        if run.retcode != 0 then Err(Failure(args, run))
        else if keyPath in ran.files then Ok(ReadText(ran.files[keyPath]))
        else Err(ReadFailed(keyPath));
      var cleaned := RemoveTree(ran, tmpd);
      assert args[4] == args[..5][4] == keyPath;
      CleanupRestores(fs, tmpd, args, run);
      Step(cleaned, result, [args])
  }

  /** Staging a fresh scratch directory, letting the tool write inside it and
      removing it again restores the filesystem exactly. */
  lemma CleanupRestores(fs: FileSystem, tmpd: string, args: seq<string>, run: ToolRun)
    requires FreshTempDir(fs, tmpd)
    requires |args| >= 5 && Under(args[4], tmpd)
    ensures RemoveTree(RunTool(fs.(tempDirs := fs.tempDirs + {tmpd}), args, run), tmpd) == fs
  {
    var staged := fs.(tempDirs := fs.tempDirs + {tmpd});
    var ran := RunTool(staged, args, run);
    var cleaned := RemoveTree(ran, tmpd);
    assert cleaned.files == fs.files;
    assert cleaned.tempDirs == fs.tempDirs;
  }

  /** `write_content`: an existing keyring is left alone; otherwise the
      serialised content is written at the resolved path and nothing else
      changes. Either way the call returns true. */
  function WriteContent(k: Keyring, fs: FileSystem, content: string): (s: Step<bool>)
    ensures s.result == Ok(true) && s.invoked == [] && s.fs.tempDirs == fs.tempDirs
    ensures Present(k, fs) ==> s.fs == fs
    ensures !Present(k, fs) ==>
      && PathGet(k) in s.fs.files && s.fs.files[PathGet(k)] == Serialize(content)
      && AgreeExcept(s.fs.files, fs.files, PathGet(k))
  {
    var p := PathGet(k);
    if p in fs.files then Step(fs, Ok(true), [])
    else Step(fs.(files := fs.files[p := Serialize(content)]), Ok(true), [])
  }

  /** `write_secret`: an existing keyring is left alone and the call succeeds
      whatever the secret. Otherwise a missing secret is rejected, and any
      other secret (even an empty one) is handed to the tool, which writes
      the resolved path directly; a non-zero exit raises. */
  function WriteSecret(k: Keyring, fs: FileSystem, secret: Option<string>, run: ToolRun): (s: Step<bool>)
    ensures s.fs.tempDirs == fs.tempDirs
    ensures Present(k, fs) ==> s == Step(fs, Ok(true), [])
    ensures !Present(k, fs) && secret.None? ==> s == Step(fs, Err(InvalidSecret), [])
    ensures !Present(k, fs) && secret.Some? ==>
      && s.invoked == [ArgumentsCreate(k, PathGet(k), secret)]
      && AgreeExcept(s.fs.files, fs.files, PathGet(k))
      && (run.output.Some? ==> PathGet(k) in s.fs.files && s.fs.files[PathGet(k)] == run.output.value)
      && (run.output.None? ==> PathGet(k) !in s.fs.files)
      && s.result == (if run.retcode != 0 then Err(Failure(s.invoked[0], run)) else Ok(true))
  {
    var p := PathGet(k);
    if p in fs.files then Step(fs, Ok(true), [])
    else if secret.None? then Step(fs, Err(InvalidSecret), [])
    else
      var args := ArgumentsCreate(k, p, secret);
      assert args[4] == args[..5][4] == p;
      var ran := RunTool(fs, args, run);
      Step(ran, if run.retcode != 0 then Err(Failure(args, run)) else Ok(true), [args])
  }

  /** `remove`: deletes an existing keyring and nothing else; an absent one is
      a success with nothing to do. `deleteFails` says whether the
      filesystem refuses the delete, which raises and leaves the file. */
  function Remove(k: Keyring, fs: FileSystem, deleteFails: bool): (s: Step<bool>)
    ensures s.invoked == [] && s.fs.tempDirs == fs.tempDirs
    ensures !Present(k, fs) ==> s.fs == fs && s.result == Ok(true)
    ensures Present(k, fs) && deleteFails ==> s.fs == fs && s.result == Err(DeleteFailed)
    ensures Present(k, fs) && !deleteFails ==>
      && s.result == Ok(true)
      && !Present(k, s.fs)
      && AgreeExcept(s.fs.files, fs.files, PathGet(k))
  {
    var p := PathGet(k);
    if p in fs.files then
      if deleteFails then Step(fs, Err(DeleteFailed), [])
      else Step(fs.(files := fs.files - {p}), Ok(true), [])
    else Step(fs, Ok(true), [])
  }

  // ---------------------------------------------------------------------
  // How the operations compose

  /** A successful removal leaves nothing to remove: after it, `remove` is a
      no-op that succeeds. */
  lemma RemoveIdempotent(k: Keyring, fs: FileSystem)
    ensures var s := Remove(k, fs, false);
      && s.result == Ok(true)
      && !Present(k, s.fs)
      && Remove(k, s.fs, false) == Step(s.fs, Ok(true), [])
  {
  }

  /** Writing content into an absent keyring and removing it again restores
      the filesystem exactly. */
  lemma RemoveUndoesWriteContent(k: Keyring, fs: FileSystem, content: string)
    requires !Present(k, fs)
    ensures Remove(k, WriteContent(k, fs, content).fs, false).fs == fs
  {
    var w := WriteContent(k, fs, content).fs;
    assert w.files - {PathGet(k)} == fs.files;
  }

  /** Once content is written, `create` returns the serialised content, as
      a text-mode read sees it, and does not run the tool; content without
      a carriage return comes back exactly as serialised. */
  lemma WriteContentThenCreate(
    k: Keyring, fs: FileSystem, content: string, secret: Option<string>, tmpd: string, run: ToolRun)
    requires !Present(k, fs)
    requires FreshTempDir(WriteContent(k, fs, content).fs, tmpd)
    ensures var s := Create(k, WriteContent(k, fs, content).fs, secret, tmpd, run);
      && s.result == Ok(ReadText(Serialize(content)))
      && ('\r' !in content ==> s.result == Ok(Serialize(content)))
      && s.invoked == []
  {
    if '\r' !in content {
      SerializeKeepsOut(content, '\r');
      ReadTextPlain(Serialize(content));
    }
  }

  /** A keyring written by a successful tool run is what `create` reads back
      afterwards, without running the tool again. */
  lemma WriteSecretThenCreate(
    k: Keyring, fs: FileSystem, secret: Option<string>, run: ToolRun,
    secret': Option<string>, tmpd: string, run': ToolRun)
    requires !Present(k, fs) && secret.Some? && run.output.Some?
    requires FreshTempDir(WriteSecret(k, fs, secret, run).fs, tmpd)
    ensures var s := Create(k, WriteSecret(k, fs, secret, run).fs, secret', tmpd, run');
      s.result == Ok(ReadText(run.output.value)) && s.invoked == []
  {
  }

  /** Asking twice for a keyring that exists returns the same content both
      times and never runs the tool. */
  lemma CreateTwiceWhenPresent(
    k: Keyring, fs: FileSystem, secret: Option<string>, tmpd: string, run: ToolRun,
    secret': Option<string>, tmpd': string, run': ToolRun)
    requires Present(k, fs)
    requires FreshTempDir(fs, tmpd) && FreshTempDir(fs, tmpd')
    ensures var s := Create(k, fs, secret, tmpd, run);
      var s' := Create(k, s.fs, secret', tmpd', run');
      s.result == s'.result == Ok(ReadText(fs.files[PathGet(k)])) && s.invoked == s'.invoked == []
  {
  }

  /** `create` on an absent keyring does not persist what it generates: a
      second call finds the keyring still absent and runs the tool again. */
  lemma CreateLeavesAbsent(
    k: Keyring, fs: FileSystem, secret: Option<string>, tmpd: string, run: ToolRun,
    secret': Option<string>, tmpd': string, run': ToolRun)
    requires !Present(k, fs)
    requires FreshTempDir(fs, tmpd) && FreshTempDir(fs, tmpd')
    ensures var s := Create(k, fs, secret, tmpd, run);
      && !Present(k, s.fs)
      && |Create(k, s.fs, secret', tmpd', run').invoked| == 1
  {
  }

  /** A failed generation names the exact command line that was run, and
      leaves no scratch directory behind. */
  lemma CreateFailureReportsCommand(
    k: Keyring, fs: FileSystem, secret: Option<string>, tmpd: string, run: ToolRun)
    requires !Present(k, fs) && FreshTempDir(fs, tmpd) && run.retcode != 0
    ensures var s := Create(k, fs, secret, tmpd, run);
      && s.result.Err? && s.result.error.GenerationFailed?
      && s.result.error.command == ArgumentsCreate(k, TempKeyPath(tmpd), secret)
      && s.result.error.command[4] == TempKeyPath(tmpd)
      && s.result.error.retcode == run.retcode
      && tmpd !in s.fs.tempDirs
  {
  }

  /** `write_secret` rejects only a missing secret: an empty one is accepted
      and, being falsy, makes the tool generate a fresh key. */
  lemma WriteSecretEmptyGenerates(k: Keyring, fs: FileSystem, run: ToolRun)
    requires !Present(k, fs)
    ensures var s := WriteSecret(k, fs, Some(""), run);
      && s.result != Err(InvalidSecret)
      && |s.invoked| == 1
      && "--gen-key" in s.invoked[0] && "--add-key" !in s.invoked[0]
  {
    KeyringPathShape(k.keyType, k.model.clusterName);
    var p := PathGet(k);
    assert p !in KeyFlags by {
      assert "--gen-key"[0] == '-' && "--add-key"[0] == '-';
    }
    CreateArgsKeyFlags(k.keyType, k.model.cephVersion, p, Some(""));
  }

  // ---------------------------------------------------------------------
  // Never clobber

  /** One call on some keyring object, with everything the environment
      decides for it: the scratch directory `mkdtemp` hands out, what the tool
      does, whether a delete is refused. */
  datatype Op =
    | CreateOp(target: Keyring, secret: Option<string>, tmpd: string, run: ToolRun)
    | WriteContentOp(target: Keyring, content: string)
    | WriteSecretOp(target: Keyring, secret: Option<string>, run: ToolRun)
    | RemoveOp(target: Keyring, deleteFails: bool)

  /** The environment keeps its promises: every scratch directory is fresh
      when it is handed out. */
  predicate Applicable(op: Op, fs: FileSystem) {
    op.CreateOp? ==> FreshTempDir(fs, op.tmpd)
  }

  /** The filesystem after one call, whether it returned or raised. */
  function Apply(op: Op, fs: FileSystem): FileSystem
    requires Applicable(op, fs)
  {
    match op
    case CreateOp(k, secret, tmpd, run) => Create(k, fs, secret, tmpd, run).fs
    case WriteContentOp(k, content) => WriteContent(k, fs, content).fs
    case WriteSecretOp(k, secret, run) => WriteSecret(k, fs, secret, run).fs
    case RemoveOp(k, deleteFails) => Remove(k, fs, deleteFails).fs
  }

  /** Every call of the script finds the environment keeping its promises. */
  predicate ScriptApplicable(ops: seq<Op>, fs: FileSystem)
    decreases |ops|
  {
    |ops| == 0 || (Applicable(ops[0], fs) && ScriptApplicable(ops[1..], Apply(ops[0], fs)))
  }

  /** The filesystem after running the script in order. */
  function RunScript(ops: seq<Op>, fs: FileSystem): FileSystem
    requires ScriptApplicable(ops, fs)
    decreases |ops|
  {
    if |ops| == 0 then fs else RunScript(ops[1..], Apply(ops[0], fs))
  }

  /** A single call that is not a removal of the keyring at `p` leaves the
      file at `p` exactly as it was. */
  lemma ApplyKeepsKeyring(op: Op, fs: FileSystem, p: string)
    requires Applicable(op, fs)
    requires p in fs.files
    requires op.RemoveOp? ==> PathGet(op.target) != p
    ensures p in Apply(op, fs).files && Apply(op, fs).files[p] == fs.files[p]
  {
    var q := PathGet(op.target);
    var after := Apply(op, fs);
    if q == p {
      assert after == fs;
    } else {
      assert after == fs || AgreeExcept(after.files, fs.files, q);
      if after != fs {
        AgreeExceptKeeps(after.files, fs.files, q, p);
      }
    }
  }

  /** Two maps that agree away from `q` agree at every other path. */
  lemma AgreeExceptKeeps(a: map<string, string>, b: map<string, string>, q: string, p: string)
    requires AgreeExcept(a, b, q) && p != q && p in b
    ensures p in a && a[p] == b[p]
  {
    assert p in b - {q};
    assert (a - {q})[p] == a[p];
  }

  /** Never clobber: whatever sequence of creates, content writes and secret
      writes runs, with whatever the tool does, a keyring already on disk
      keeps its content, unless the script removes that very keyring. */
  lemma {:induction false} NeverClobber(ops: seq<Op>, fs: FileSystem, p: string)
    requires ScriptApplicable(ops, fs)
    requires p in fs.files
    requires forall i :: 0 <= i < |ops| && ops[i].RemoveOp? ==> PathGet(ops[i].target) != p
    ensures p in RunScript(ops, fs).files && RunScript(ops, fs).files[p] == fs.files[p]
    decreases |ops|
  {
    if |ops| > 0 {
      ApplyKeepsKeyring(ops[0], fs, p);
      var next := Apply(ops[0], fs);
      forall i | 0 <= i < |ops[1..]| && ops[1..][i].RemoveOp?
        ensures PathGet(ops[1..][i].target) != p
      {
        assert ops[1..][i] == ops[i + 1];
      }
      NeverClobber(ops[1..], next, p);
    }
  }
}
