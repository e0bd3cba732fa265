/**
 * The launcher around the extraction (main.go:29-127): the order of the
 * steps of `run`, the proot command line, the environment handed to the
 * child, the cleanup switch and the status the launcher exits with.
 *
 * Everything the launcher learns from the host (os.Args, os.Environ, the
 * name os.MkdirTemp picks, whether loading proot, starting it and waiting
 * for it succeed, and how the child ends) is an input of `Run`.
 */
module Launcher {
  import opened Wrappers
  import opened Paths
  import opened Extractor
  import opened Containment

  // ----- the proot command line -----

  /** The arguments proot is started with: bind the tree's nix directory onto /nix, run the
      program os.Args[1] names inside the tree, and pass the rest of os.Args on. */
  function ProotArgs(tmpDir: string, osArgs: seq<string>): (r: seq<string>)
    requires |osArgs| >= 2
    ensures |r| == |osArgs| + 1 && r[0] == "-b"
    ensures r[3..] == osArgs[2..]
  {
    ["-b", Join(tmpDir, "nix") + ":/nix", Join(tmpDir, osArgs[1])] + osArgs[2..]
  }

  /** The bind source is the "nix" directory right below the temporary directory; the program
      path is os.Args[1] resolved below it, and stays below it unless os.Args[1] climbs out
      with "..". An absolute os.Args[1] such as "/bin/hello" is taken inside the tree too. */
  lemma ProotArgsLayout(tmpDir: string, osArgs: seq<string>)
    requires |osArgs| >= 2 && tmpDir != ""
    ensures var r, host := ProotArgs(tmpDir, osArgs), Join(tmpDir, "nix");
      && r[1] == host + ":/nix"
      && Rooted(host) == Rooted(tmpDir) && Parts(host) == Parts(tmpDir) + ["nix"]
      && Rooted(r[2]) == Rooted(tmpDir)
      && Parts(r[2]) == Reduce(Rooted(tmpDir), Parts(tmpDir), Segments(osArgs[1]))
    ensures (forall i | 0 <= i < |Segments(osArgs[1])| :: Segments(osArgs[1])[i] != "..") ==>
      Within(ProotArgs(tmpDir, osArgs)[2], tmpDir)
  {
    JoinComponents(tmpDir, "nix");
    SegmentsOfSlashFree("nix");
    JoinComponents(tmpDir, osArgs[1]);
    if forall i | 0 <= i < |Segments(osArgs[1])| :: Segments(osArgs[1])[i] != ".." {
      JoinStaysWithin(tmpDir, osArgs[1]);
    }
  }

  // ----- the environment -----

  /** `e` is an entry for `key`: Go splits an entry at its first '='. */
  predicate IsEntryFor(e: string, key: string)
  {
    '=' !in key && key + "=" <= e
  }

  /** os.Getenv over the list os.Environ returns: the value of the first entry for `key`. */
  function Lookup(env: seq<string>, key: string): Option<string>
    decreases |env|
  {
    if env == [] then None
    else if IsEntryFor(env[0], key) then Some(env[0][|key| + 1..])
    else Lookup(env[1..], key)
  }

  /** Lookup finds a value exactly when some entry is for the key, and then it is the value of
      the first such entry. */
  lemma {:induction false} LookupSpec(env: seq<string>, key: string)
    ensures Lookup(env, key).Some? <==> exists i | 0 <= i < |env| :: IsEntryFor(env[i], key)
    ensures Lookup(env, key).Some? ==> exists i | 0 <= i < |env| ::
      && IsEntryFor(env[i], key) && Lookup(env, key).value == env[i][|key| + 1..]
      && forall j | 0 <= j < i :: !IsEntryFor(env[j], key)
    decreases |env|
  {
    if env != [] && !IsEntryFor(env[0], key) {
      LookupSpec(env[1..], key);
      assert forall i | 1 <= i < |env| :: env[1..][i - 1] == env[i];
      if Lookup(env, key).Some? {
        var i :| 0 <= i < |env[1..]| && IsEntryFor(env[1..][i], key) && Lookup(env, key).value == env[1..][i][|key| + 1..]
          && forall j | 0 <= j < i :: !IsEntryFor(env[1..][j], key);
        assert forall j | 0 <= j < i + 1 :: !IsEntryFor(env[j], key) by {
          forall j | 0 <= j < i + 1 ensures !IsEntryFor(env[j], key) {
            if j > 0 {
              assert env[j] == env[1..][j - 1];
            }
          }
        }
        assert IsEntryFor(env[i + 1], key);
      }
    }
  }

  /** os.Getenv: "" when the key is not set. */
  function Getenv(env: seq<string>, key: string): string
  {
    match Lookup(env, key)
    case None => ""
    case Some(v) => v
  }

  /** The PATH the child gets: the tree's bin directory in front of the launcher's own PATH. */
  function ChildPath(tmpDir: string, environ: seq<string>): string
  {
    Join(tmpDir, "bin") + ":" + Getenv(environ, "PATH")
  }

  function RewriteEntry(path: string, e: string): string
  {
    if HasPrefix(e, "PATH=") then "PATH=" + path else e
  }

  /** Every entry, in order, with each entry starting "PATH=" replaced by PATH=`path`. */
  function RewriteAll(path: string, env: seq<string>): seq<string>
  {
    seq(|env|, i requires 0 <= i < |env| => RewriteEntry(path, env[i]))
  }

  /** The environment of the child. */
  function ChildEnv(tmpDir: string, environ: seq<string>): seq<string>
  {
    RewriteAll(ChildPath(tmpDir, environ), environ)
  }

  /** The loop over os.Environ() that builds the child's environment. */
  method RewriteEnv(tmpDir: string, environ: seq<string>) returns (envs: seq<string>)
    ensures |envs| == |environ|
    ensures forall i | 0 <= i < |environ| ::
      envs[i] == (if HasPrefix(environ[i], "PATH=") then "PATH=" + ChildPath(tmpDir, environ) else environ[i])
    ensures envs == ChildEnv(tmpDir, environ)
  {
    envs := [];
    for i := 0 to |environ|
      invariant |envs| == i
      invariant forall k | 0 <= k < i :: envs[k] == RewriteEntry(ChildPath(tmpDir, environ), environ[k])
    {
      var env := environ[i];
      if HasPrefix(env, "PATH=") {
        env := "PATH=" + Join(tmpDir, "bin") + ":" + Getenv(environ, "PATH");
      }
      assert env == RewriteEntry(ChildPath(tmpDir, environ), environ[i]);
      envs := envs + [env];
    }
    assert forall k | 0 <= k < |environ| :: envs[k] == ChildEnv(tmpDir, environ)[k];
  }

  /** An entry starting "PATH=" is an entry for PATH and for no other key. */
  lemma PathEntryKey(e: string, key: string)
    requires HasPrefix(e, "PATH=")
    ensures IsEntryFor(e, key) <==> key == "PATH"
  {
    if IsEntryFor(e, key) {
      assert (key + "=")[|key|] == '=' == e[|key|];
      assert forall j | 0 <= j < |key| :: e[j] == key[j] != '=';
      assert forall j | 0 <= j < 4 :: e[j] == "PATH="[j] != '=';
      assert e[4] == '=';
      assert |key| == 4;
      assert key == e[..4];
    }
  }

  /** Rewriting leaves every entry for a key other than PATH alone, and PATH entries are PATH
      entries before and after. */
  lemma RewriteEntryKeys(path: string, e: string, key: string)
    ensures IsEntryFor(RewriteEntry(path, e), "PATH") <==> IsEntryFor(e, "PATH")
    ensures key != "PATH" ==> (IsEntryFor(RewriteEntry(path, e), key) <==> IsEntryFor(e, key))
    ensures key != "PATH" && IsEntryFor(e, key) ==> RewriteEntry(path, e) == e
  {
    if HasPrefix(e, "PATH=") {
      PathEntryKey(e, key);
      PathEntryKey(RewriteEntry(path, e), key);
    }
  }

  /** What the child sees when it looks a variable up: PATH becomes `path` if it was set and
      stays unset otherwise; every other variable keeps its value. */
  lemma {:induction false} LookupAfterRewrite(path: string, env: seq<string>, key: string)
    ensures key != "PATH" ==> Lookup(RewriteAll(path, env), key) == Lookup(env, key)
    ensures key == "PATH" ==>
      Lookup(RewriteAll(path, env), key) == (if Lookup(env, key).Some? then Some(path) else None)
    decreases |env|
  {
    var env' := RewriteAll(path, env);
    if env != [] {
      assert env'[0] == RewriteEntry(path, env[0]);
      assert env'[1..] == RewriteAll(path, env[1..]);
      RewriteEntryKeys(path, env[0], key);
      LookupAfterRewrite(path, env[1..], key);
    }
  }

  /** Without a PATH entry the child gets the launcher's environment unchanged. */
  lemma ChildEnvWithoutPath(tmpDir: string, environ: seq<string>)
    requires Lookup(environ, "PATH").None?
    ensures ChildEnv(tmpDir, environ) == environ
  {
    forall i | 0 <= i < |environ|
      ensures ChildEnv(tmpDir, environ)[i] == environ[i]
    {
      if HasPrefix(environ[i], "PATH=") {
        PathEntryKey(environ[i], "PATH");
      }
    }
  }

  /** The child's PATH is the tree's bin directory, a colon, then the launcher's PATH (so an
      empty PATH leaves a trailing empty element); everything else is passed on as it is. */
  lemma ChildEnvLookup(tmpDir: string, environ: seq<string>, key: string)
    ensures Lookup(environ, "PATH").Some? ==>
      Lookup(ChildEnv(tmpDir, environ), "PATH") ==
        Some(Join(tmpDir, "bin") + ":" + Lookup(environ, "PATH").value)
    ensures Lookup(environ, "PATH").None? ==> Lookup(ChildEnv(tmpDir, environ), "PATH").None?
    ensures key != "PATH" ==> Lookup(ChildEnv(tmpDir, environ), key) == Lookup(environ, key)
  {
    LookupAfterRewrite(ChildPath(tmpDir, environ), environ, "PATH");
    LookupAfterRewrite(ChildPath(tmpDir, environ), environ, key);
  }

  // ----- cleanup -----

  /** The deferred os.RemoveAll(tmpDir) runs unless PROOT_NO_CLEANUP is exactly "1". */
  predicate CleanupEnabled(environ: seq<string>)
  {
    Getenv(environ, "PROOT_NO_CLEANUP") != "1"
  }

  lemma CleanupSwitch(environ: seq<string>)
    ensures !CleanupEnabled(environ) <==> Lookup(environ, "PROOT_NO_CLEANUP") == Some("1")
  {
  }

  /** os.RemoveAll on the abstract filesystem: the directory and everything below it go. */
  function RemoveAll(fs: Fs, dir: string): Fs
  {
    map k | k in fs && !Within(k, dir) :: fs[k]
  }

  // ----- run and main -----

  datatype ProcessState = Exited(code: int) | Signaled(signal: int)

  /** Why `run` returns an error (or, for Usage, why it calls log.Fatal). */
  datatype RunError =
    | Usage
    | TempDirFailed(reason: string)
    | UnpackFailed(cause: Error)
    | LoadFailed(reason: string)
    | StartFailed(reason: string)
    | WaitFailed(reason: string)
    | ChildFailed(state: ProcessState)

  datatype Command = Command(args: seq<string>, env: seq<string>)

  /** What the host answers to the launcher: its arguments and environment, the directory
      os.MkdirTemp creates (or why it cannot), whether memexec can load proot and the child
      can be started, and how waiting for the child ends. */
  datatype Host = Host(
    osArgs: seq<string>,
    environ: seq<string>,
    tempDir: Result<string, string>,
    load: Option<string>,
    start: Option<string>,
    wait: Result<ProcessState, string>)

  /** The error `run` ends with, the command it started, and the filesystem it leaves. */
  datatype Report = Report(err: Option<RunError>, started: Option<Command>, fs: Fs)

  /** The mode os.MkdirTemp creates its directory with (0700). */
  const TempDirMode: int := 448

  /** How waiting for a started child ends: nil only on a zero exit. */
  function WaitError(wait: Result<ProcessState, string>): Option<RunError>
  {
    match wait
    case Err(reason) => Some(WaitFailed(reason))
    case Ok(state) => if state == Exited(0) then None else Some(ChildFailed(state))
  }

  /** `run`: the steps in order, the first failing one deciding the error, and the deferred
      cleanup of the temporary directory once it exists. */
  function Run(policy: Policy, host: Host, archive: TarGz, fs: Fs): Report
  {
    if |host.osArgs| < 2 then Report(Some(Usage), None, fs)
    else
      match host.tempDir
      case Err(reason) => Report(Some(TempDirFailed(reason)), None, fs)
      case Ok(tmpDir) =>
        var unpacked := Unpack(policy, archive, tmpDir, fs[Clean(tmpDir) := DirNode(TempDirMode)]);
        var left := if CleanupEnabled(host.environ) then RemoveAll(unpacked.fs, tmpDir) else unpacked.fs;
        var cmd := Command(ProotArgs(tmpDir, host.osArgs), ChildEnv(tmpDir, host.environ));
        if unpacked.err.Some? then Report(Some(UnpackFailed(unpacked.err.value)), None, left)
        else if host.load.Some? then Report(Some(LoadFailed(host.load.value)), None, left)
        else if host.start.Some? then Report(Some(StartFailed(host.start.value)), None, left)
        else Report(WaitError(host.wait), Some(cmd), left)
  }

  /** The child is started only after every earlier step succeeded, with the proot command line
      and the rewritten environment. */
  lemma RunStarts(policy: Policy, host: Host, archive: TarGz, fs: Fs)
    ensures var r := Run(policy, host, archive, fs);
      r.started.Some? <==>
        && |host.osArgs| >= 2 && host.tempDir.Ok?
        && Unpack(policy, archive, host.tempDir.value,
             fs[Clean(host.tempDir.value) := DirNode(TempDirMode)]).err.None?
        && host.load.None? && host.start.None?
    ensures var r := Run(policy, host, archive, fs);
      r.started.Some? ==>
        && r.started.value.args == ProotArgs(host.tempDir.value, host.osArgs)
        && r.started.value.env == ChildEnv(host.tempDir.value, host.environ)
        && r.err == WaitError(host.wait)
  {
  }

  /** The temporary directory is removed, with everything below it, exactly when it was
      created and PROOT_NO_CLEANUP is not "1" — whether or not a later step failed. What the
      extraction wrote outside it stays. */
  lemma RunCleanup(policy: Policy, host: Host, archive: TarGz, fs: Fs)
    requires |host.osArgs| >= 2 && host.tempDir.Ok?
    ensures var tmpDir := host.tempDir.value;
      var unpacked := Unpack(policy, archive, tmpDir, fs[Clean(tmpDir) := DirNode(TempDirMode)]).fs;
      var left := Run(policy, host, archive, fs).fs;
      && left == (if CleanupEnabled(host.environ) then RemoveAll(unpacked, tmpDir) else unpacked)
      && (CleanupEnabled(host.environ) ==>
            forall k :: k in left <==> k in unpacked && !Within(k, tmpDir))
      && (!CleanupEnabled(host.environ) ==> left == unpacked)
  {
  }

  /** Removing a fresh directory after changes confined to it restores the filesystem. */
  lemma RemoveConfined(d: string, fs: Fs, after: Fs)
    requires forall k | k in fs :: !Within(k, d)
    requires Confined(d, fs[Clean(d) := DirNode(TempDirMode)], after)
    ensures RemoveAll(after, d) == fs
  {
    var fs0 := fs[Clean(d) := DirNode(TempDirMode)];
    CleanIdempotent(d);
    assert Within(Clean(d), d);
    var left := RemoveAll(after, d);
    forall k | k in left
      ensures k in fs && left[k] == fs[k]
    {
      assert k != Clean(d);
      assert k in fs0 && after[k] == fs0[k];
    }
    forall k | k in fs
      ensures k in left
    {
      assert k in fs0;
    }
  }

  /** With the hardened checks and cleanup on, the launcher leaves the filesystem exactly as it
      found it, whatever the archive holds, provided nothing lay below the fresh temporary
      directory. (The child's own writes are not part of this model.) */
  lemma HardenedRunLeavesNoTrace(host: Host, archive: TarGz, fs: Fs)
    requires |host.osArgs| >= 2 && host.tempDir.Ok? && CleanupEnabled(host.environ)
    requires forall k | k in fs :: !Within(k, host.tempDir.value)
    ensures Run(Hardened, host, archive, fs).fs == fs
  {
    var d := host.tempDir.value;
    var fs0 := fs[Clean(d) := DirNode(TempDirMode)];
    assert IsDirAt(fs0, Rooted(d), Parts(d));
    HardenedUnpackConfined(archive, d, fs0);
    RunCleanup(Hardened, host, archive, fs);
    RemoveConfined(d, fs, Unpack(Hardened, archive, d, fs0).fs);
  }

  // ----- the exit status -----

  /** exec.ExitError.ExitCode: the exit code, or -1 for a child ended by a signal. */
  function ExitCode(state: ProcessState): int
  {
    match state
    case Exited(code) => code
    case Signaled(_) => -1
  }

  /** The status the launcher exits with: 0 after a nil error, the child's exit code passed to
      os.Exit (which keeps its low eight bits) after a child failure, and 1 from log.Fatal for
      every other error. */
  function ExitStatus(err: Option<RunError>): (status: int)
    ensures 0 <= status < 256
    ensures err.None? ==> status == 0
    ensures err.Some? && !err.value.ChildFailed? ==> status == 1
  {
    match err
    case None => 0
    case Some(ChildFailed(state)) => ExitCode(state) % 256
    case Some(_) => 1
  }

  /** How the status follows from the way waiting for the child ends. */
  lemma WaitStatus(wait: Result<ProcessState, string>)
    requires wait.Ok? && wait.value.Exited? ==> 0 <= wait.value.code < 256
    ensures ExitStatus(WaitError(wait)) == 0 <==> WaitError(wait).None?
    ensures wait.Ok? && wait.value.Exited? ==> ExitStatus(WaitError(wait)) == wait.value.code
    ensures wait.Ok? && wait.value.Signaled? ==> ExitStatus(WaitError(wait)) == 255
  {
  }

  /** A child that exits with a code in 1..255 passes that code on; one killed by a signal makes
      the launcher exit 255; the launcher exits 0 exactly when `run` returned nil. */
  lemma RunExitStatus(policy: Policy, host: Host, archive: TarGz, fs: Fs)
    requires host.wait.Ok? && host.wait.value.Exited? ==> 0 <= host.wait.value.code < 256
    ensures var r := Run(policy, host, archive, fs);
      && (ExitStatus(r.err) == 0 <==> r.err.None?)
      && (r.started.Some? && host.wait.Ok? && host.wait.value.Exited? ==>
            ExitStatus(r.err) == host.wait.value.code)
      && (r.started.Some? && host.wait.Ok? && host.wait.value.Signaled? ==> ExitStatus(r.err) == 255)
  {
    var r := Run(policy, host, archive, fs);
    RunStarts(policy, host, archive, fs);
    WaitStatus(host.wait);
    if r.started.None? {
      assert r.err.Some? && !r.err.value.ChildFailed?;
    }
  }

  /** The status does not tell the launcher's own failures from the child's: an internal error
      and a child exiting 1 both give 1, a signal and a child exiting 255 both give 255. */
  lemma ExitStatusAmbiguous(reason: string, signal: int)
    ensures ExitStatus(Some(WaitFailed(reason))) == ExitStatus(Some(ChildFailed(Exited(1))))
    ensures ExitStatus(Some(Usage)) == ExitStatus(Some(ChildFailed(Exited(1))))
    ensures ExitStatus(Some(ChildFailed(Signaled(signal)))) == ExitStatus(Some(ChildFailed(Exited(255))))
  {
  }
}
