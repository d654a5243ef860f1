/**
 * The project directory and the process state the bootstrap script changes in
 * place: the entries of the target directory, whether it exists, the working
 * directory, the installers spawned so far and the exit status. The pre-flight
 * clean-up, `install` and `run` with its rollback are methods on it, each proved
 * against the pure definitions of Preflight and Install.
 */
module Bootstrap {
  import opened Wrappers
  import opened Strings
  import opened Preflight
  import opened Install

  /** What the rollback deletes from the project root, matched by exact name. */
  const KnownGeneratedFiles: seq<string> := ["package.json", "yarn.lock", "node_modules", "package-lock.json"]

  class Workspace {
    /** The project root, and `path.resolve(root, '..')`. */
    const root: string
    const parent: string

    var rootExists: bool
    /** The names `fs.readdirSync(root)` lists; their order is not modelled. */
    var entries: set<string>
    /** `process.cwd()` */
    var cwd: string
    /** Every installer process spawned, in order. */
    var spawned: seq<Invocation>
    /** The status passed to `process.exit`, once it is called. */
    var exitStatus: Option<int>

    /** A directory that does not exist has no entries. */
    predicate Valid()
      reads this
    {
      !rootExists ==> entries == {}
    }

    /** A project root that `fs.ensureDirSync` has made sure of, with what it holds. */
    constructor (root: string, parent: string, entries: set<string>, cwd: string)
      ensures Valid()
      ensures this.root == root && this.parent == parent && this.cwd == cwd
      ensures rootExists && this.entries == entries
      ensures spawned == [] && exitStatus == None
    {
      this.root := root;
      this.parent := parent;
      this.cwd := cwd;
      rootExists := true;
      this.entries := entries;
      spawned := [];
      exitStatus := None;
    }

    /** `fs.readdirSync(root)`: every entry exactly once, in some order. */
    method ListEntries() returns (listing: seq<string>)
      requires rootExists
      ensures forall e :: e in listing <==> e in entries
      ensures |listing| == |entries|
    {
      listing := [];
      var rest := entries;
      while rest != {}
        invariant rest <= entries
        invariant forall e :: e in listing <==> e in entries && e !in rest
        invariant |listing| + |rest| == |entries|
        decreases |rest|
      {
        var e :| e in rest;
        listing := listing + [e];
        rest := rest - {e};
      }
    }

    /** `fs.removeSync(path.join(root, name))`; a missing entry is no error. */
    method RemoveEntry(name: string)
      requires rootExists
      modifies this`entries
      ensures entries == old(entries) - {name}
    {
      entries := entries - {name};
    }

    /** `fs.removeSync(root)`: the directory and everything left in it go. */
    method RemoveRoot()
      modifies this`rootExists, this`entries
      ensures !rootExists && entries == {}
    {
      rootExists := false;
      entries := {};
    }

    /** The clean-up loop of `isSafeToCreateProjectIn`: removes every old error log. */
    method RemoveErrorLogs()
      requires rootExists
      modifies this`entries
      ensures entries == WithoutErrorLogs(old(entries))
    {
      var files := ListEntries();
      var i := 0;
      while i < |files|
        invariant 0 <= i <= |files|
        invariant forall e :: e in entries <==> e in old(entries) && !(e in files[..i] && IsErrorLog(e))
      {
        if IsErrorLog(files[i]) {
          RemoveEntry(files[i]);
        }
        assert files[..i + 1] == files[..i] + [files[i]];
        i := i + 1;
      }
      assert files[..i] == files;
    }

    /**
     * `isSafeToCreateProjectIn`: unsafe when any entry is not tolerated, and
     * then nothing is deleted; when safe, exactly the old error logs are removed.
     */
    method IsSafeToCreateProjectIn() returns (safe: bool)
      requires rootExists
      modifies this`entries
      ensures safe <==> IsSafe(old(entries))
      ensures entries == if safe then WithoutErrorLogs(old(entries)) else old(entries)
    {
      var listing := ListEntries();
      var conflicts := Conflicts(listing);
      NoConflictsIffSafe(listing, entries);
      if |conflicts| > 0 {
        return false;
      }
      RemoveErrorLogs();
      return true;
    }

    /**
     * `install`: spawns the installer for one package list and settles on its
     * exit code. What the installer creates lands in the project root.
     */
    method Install(useYarn: bool, usePnp: bool, dependencies: seq<string>, verbose: bool, isOnline: bool,
                   dev: bool, installer: Invocation -> Completion) returns (settled: Settlement)
      requires rootExists
      modifies this`spawned, this`entries
      ensures var command := InstallCommand(useYarn, usePnp, dependencies, verbose, isOnline, dev);
              if command.Failure? then
                settled == Rejected(command.error) && spawned == old(spawned) && entries == old(entries)
              else
                settled == Settle(command.value, installer(command.value))
                && spawned == old(spawned) + [command.value]
                && entries == old(entries) + installer(command.value).created
    {
      if useYarn {
        // The Yarn arguments append the undeclared `prodDependencies`: the
        // promise executor throws before anything is spawned.
        return Rejected(UnexpectedError);
      }
      var command := "npm";
      var args := ["install", "--save-exact", "--loglevel"];
      args := args + ["error"];
      args := args + dependencies;
      if dev {
        args := args + ["--save-dev"];
      }
      if verbose {
        args := args + ["--verbose"];
      }
      var invocation := Invocation(command, args);
      assert args == NpmArgs(dependencies, dev, verbose);
      var completion := installer(invocation);
      spawned := spawned + [invocation];
      entries := entries + completion.created;
      if completion.code != 0 {
        settled := Rejected(CommandFailed(command + " " + Join(args, " ")));
      } else {
        settled := Resolved;
      }
    }

    /**
     * The catch handler of `run`: deletes the known generated files, deletes
     * the root (moving to its parent first) when nothing else is left, and
     * exits with status 1.
     */
    method AbortInstallation()
      requires rootExists
      modifies this`entries, this`rootExists, this`cwd, this`exitStatus
      ensures Valid()
      ensures forall e :: e in entries <==> e in old(entries) && e !in KnownGeneratedFiles
      ensures rootExists <==> entries != {}
      ensures cwd == if rootExists then old(cwd) else parent
      ensures exitStatus == Some(1)
    {
      var currentFiles := ListEntries();
      var i := 0;
      while i < |currentFiles|
        invariant 0 <= i <= |currentFiles|
        invariant rootExists && cwd == old(cwd)
        invariant forall e :: e in entries <==> e in old(entries) && !(e in currentFiles[..i] && e in KnownGeneratedFiles)
      {
        var j := 0;
        while j < |KnownGeneratedFiles|
          invariant 0 <= j <= |KnownGeneratedFiles|
          invariant rootExists && cwd == old(cwd)
          invariant forall e :: e in entries <==> (e in old(entries) && !(e in currentFiles[..i] && e in KnownGeneratedFiles)
                                                   && !(e == currentFiles[i] && e in KnownGeneratedFiles[..j]))
        {
          if currentFiles[i] == KnownGeneratedFiles[j] {
            RemoveEntry(currentFiles[i]);
          }
          assert KnownGeneratedFiles[..j + 1] == KnownGeneratedFiles[..j] + [KnownGeneratedFiles[j]];
          j := j + 1;
        }
        assert KnownGeneratedFiles[..j] == KnownGeneratedFiles;
        assert currentFiles[..i + 1] == currentFiles[..i] + [currentFiles[i]];
        i := i + 1;
      }
      assert currentFiles[..i] == currentFiles;
      var remainingFiles := ListEntries();
      if |remainingFiles| == 0 {
        cwd := parent;
        RemoveRoot();
      }
      exitStatus := Some(1);
    }

    /**
     * The promise chain of `run` up to its catch handler: the runtime install,
     * then the development install when asked for and the first succeeded.
     */
    method InstallChain(opts: Options, packages: Packages, installer: Invocation -> Completion) returns (settled: Settlement)
      requires rootExists
      modifies this`entries, this`spawned
      ensures var p := InstallPhases(opts, packages, installer);
              spawned == old(spawned) + p.spawned && entries == old(entries) + p.created
              && (settled.Rejected? <==> p.outcome.Failed?)
              && (settled.Rejected? ==> p.outcome == Failed(settled.reason))
    {
      if opts.useYarn {
        YarnAlwaysFails(opts, packages, installer);
      } else {
        PhasesWithNpm(opts, packages, installer);
      }
      settled := Install(opts.useYarn, opts.usePnp, packages.runtime, opts.verbose, IsOnline, false, installer);
      if settled.Resolved? && opts.dev {
        settled := Install(opts.useYarn, opts.usePnp, packages.development, opts.verbose, IsOnline, opts.dev, installer);
      }
    }

    /**
     * `run`: the install chain, and the rollback when it rejects. The package
     * lists `run` reads from module scope arrive as `packages`; the script's
     * own are AppName.ProductionDependencies and AppName.DevelopmentDependencies.
     */
    method Run(opts: Options, packages: Packages, installer: Invocation -> Completion) returns (outcome: Phase)
      requires rootExists
      modifies this`entries, this`rootExists, this`cwd, this`exitStatus, this`spawned
      ensures Valid()
      ensures var p := InstallPhases(opts, packages, installer);
              outcome == p.outcome && spawned == old(spawned) + p.spawned
      ensures outcome.Done? ==>
                entries == old(entries) + InstallPhases(opts, packages, installer).created
                && rootExists && cwd == old(cwd) && exitStatus == old(exitStatus)
      ensures outcome.Failed? ==>
                (forall e :: e in entries <==> e in old(entries) + InstallPhases(opts, packages, installer).created
                                               && e !in KnownGeneratedFiles)
                && (rootExists <==> entries != {})
                && cwd == (if rootExists then old(cwd) else parent)
                && exitStatus == Some(1)
    {
      var settled := InstallChain(opts, packages, installer);
      if settled.Rejected? {
        AbortInstallation();
        outcome := Failed(settled.reason);
      } else {
        outcome := Done;
      }
    }
  }
}
