/**
 * The installer invocations of `install` and the phase sequencing of `run`:
 * runtime packages first, development packages only after a successful
 * runtime install and only when asked for. The spawned package manager is an
 * oracle that reports an exit code and the entries it left in the project
 * directory.
 */
module Install {
  import opened Wrappers
  import opened Strings

  datatype Invocation = Invocation(command: string, args: seq<string>)

  /** What the spawned installer reports, and what it left in the project root. */
  datatype Completion = Completion(code: int, created: set<string>)

  /** Why an install promise rejected. */
  datatype Reason =
    | CommandFailed(command: string)  // `{command: ...}` from a non-zero exit
    | UnexpectedError                 // anything else reaching the catch handler

  datatype Settlement = Resolved | Rejected(reason: Reason)

  /** The fixed head of every npm argument list. */
  const NpmPrefix: seq<string> := ["install", "--save-exact", "--loglevel", "error"]

  /** The npm argument list: fixed head, the packages, then the two optional flags. */
  function NpmArgs(dependencies: seq<string>, dev: bool, verbose: bool): (args: seq<string>)
    ensures NpmPrefix + dependencies <= args
    ensures |args| == |NpmPrefix| + |dependencies| + (if dev then 1 else 0) + (if verbose then 1 else 0)
    ensures dev <==> "--save-dev" in args[|NpmPrefix| + |dependencies|..]
    ensures verbose <==> "--verbose" in args[|NpmPrefix| + |dependencies|..]
    ensures verbose ==> args[|args| - 1] == "--verbose"
  {
    var flags := (if dev then ["--save-dev"] else []) + (if verbose then ["--verbose"] else []);
    assert (NpmPrefix + dependencies + flags)[|NpmPrefix| + |dependencies|..] == flags;
    NpmPrefix + dependencies + flags
  }

  /**
   * The command `install` spawns. The Yarn branch reads the undeclared name
   * `prodDependencies` while building its arguments, so it throws a
   * ReferenceError inside the promise executor and nothing is spawned. The
   * npm branch ignores `usePnp` and `isOnline` apart from a log line.
   */
  function InstallCommand(useYarn: bool, usePnp: bool, dependencies: seq<string>, verbose: bool,
                          isOnline: bool, dev: bool): (r: Result<Invocation, Reason>)
    ensures r.Failure? <==> useYarn
    ensures r.Failure? ==> r.error == UnexpectedError
    ensures r.Success? ==> r.value.command == "npm" && r.value.args == NpmArgs(dependencies, dev, verbose)
  {
    if useYarn then Failure(UnexpectedError)
    else Success(Invocation("npm", NpmArgs(dependencies, dev, verbose)))
  }

  /** `${command} ${args.join(' ')}`, the text a rejection carries. */
  function CommandLine(inv: Invocation): string {
    inv.command + " " + Join(inv.args, " ")
  }

  /**
   * The command line keeps its words apart: when neither the command nor an
   * argument holds a space, splitting it at spaces gives them back.
   */
  lemma CommandLineWords(inv: Invocation)
    requires inv.args != []
    requires ' ' !in inv.command
    requires forall i :: 0 <= i < |inv.args| ==> ' ' !in inv.args[i]
    ensures Split(CommandLine(inv), ' ') == [inv.command] + inv.args
  {
    var words := [inv.command] + inv.args;
    assert words[1..] == inv.args;
    assert Join(words, " ") == CommandLine(inv);
    SplitJoin(words, ' ');
  }

  /** The fixed head spelled out as the shell would show it. */
  lemma NpmPrefixText()
    ensures Join(NpmPrefix, " ") == "install" + " " + "--save-exact" + " " + "--loglevel" + " " + "error"
  {
    assert NpmPrefix[1..][1..][1..] == ["error"];
  }

  /** An npm command line starts with `npm` and the joined fixed head. */
  lemma NpmCommandLineHead(dependencies: seq<string>, dev: bool, verbose: bool)
    ensures "npm " + Join(NpmPrefix, " ") <= CommandLine(Invocation("npm", NpmArgs(dependencies, dev, verbose)))
  {
    var args := NpmArgs(dependencies, dev, verbose);
    var head := "npm " + Join(NpmPrefix, " ");
    var line := CommandLine(Invocation("npm", args));
    if |args| > |NpmPrefix| {
      var rest := args[|NpmPrefix|..];
      assert args == NpmPrefix + rest;
      JoinAppend(NpmPrefix, rest, " ");
      assert line == head + (" " + Join(rest, " "));
    } else {
      assert args == NpmPrefix;
    }
  }

  /**
   * Every npm command line starts with the pinned, quiet install, that is
   * `npm install --save-exact --loglevel error`, written word by word.
   */
  lemma NpmCommandLinePrefix(dependencies: seq<string>, dev: bool, verbose: bool)
    ensures "npm " + "install" + " " + "--save-exact" + " " + "--loglevel" + " " + "error"
              <= CommandLine(Invocation("npm", NpmArgs(dependencies, dev, verbose)))
  {
    NpmCommandLineHead(dependencies, dev, verbose);
    NpmPrefixText();
    assert "npm " + Join(NpmPrefix, " ") == "npm " + "install" + " " + "--save-exact" + " " + "--loglevel" + " " + "error";
  }

  /** The close handler: a zero exit resolves, any other code rejects with the command line. */
  function Settle(inv: Invocation, completion: Completion): (s: Settlement)
    ensures s.Resolved? <==> completion.code == 0
    ensures s.Rejected? ==> s.reason == CommandFailed(CommandLine(inv))
  {
    if completion.code != 0 then Rejected(CommandFailed(CommandLine(inv))) else Resolved
  }

  // ---------------------------------------------------------------------
  // The promise chain of `run` as a state machine

  datatype Phase = InstallingRuntime | InstallingDev | Done | Failed(reason: Reason)

  /** The flags `run` passes on to `install`. */
  datatype Options = Options(useYarn: bool, usePnp: bool, verbose: bool, dev: bool)

  /** The two package lists `run` installs. */
  datatype Packages = Packages(runtime: seq<string>, development: seq<string>)

  /** `run` always treats the registry as reachable. */
  const IsOnline: bool := true

  /** The command of an installing phase; the runtime install never passes `--save-dev`. */
  function PhaseCommand(phase: Phase, opts: Options, packages: Packages): Result<Invocation, Reason>
    requires phase.InstallingRuntime? || phase.InstallingDev?
  {
    if phase.InstallingRuntime? then
      InstallCommand(opts.useYarn, opts.usePnp, packages.runtime, opts.verbose, IsOnline, false)
    else
      InstallCommand(opts.useYarn, opts.usePnp, packages.development, opts.verbose, IsOnline, opts.dev)
  }

  /** The outcome of one installing phase: the next phase and what was spawned. */
  function Step(phase: Phase, opts: Options, packages: Packages, installer: Invocation -> Completion): (next: (Phase, Option<Invocation>))
    requires phase.InstallingRuntime? || phase.InstallingDev?
    ensures !next.0.InstallingRuntime?
    ensures next.0.InstallingDev? ==> phase.InstallingRuntime? && opts.dev
    ensures next.1.Some? <==> !opts.useYarn
    ensures next.1.Some? ==> next.1.value.command == "npm"
  {
    match PhaseCommand(phase, opts, packages)
    case Failure(reason) => (Failed(reason), None)
    case Success(inv) =>
      match Settle(inv, installer(inv))
      case Rejected(reason) => (Failed(reason), Some(inv))
      case Resolved => (if phase.InstallingRuntime? && opts.dev then InstallingDev else Done, Some(inv))
  }

  /** Everything the install phases did before the catch handler runs. */
  datatype PhaseRun = PhaseRun(spawned: seq<Invocation>, created: set<string>, outcome: Phase)

  /** Runs the machine from `phase` to a terminal phase. */
  function Drive(phase: Phase, opts: Options, packages: Packages, installer: Invocation -> Completion): (r: PhaseRun)
    ensures r.outcome.Done? || r.outcome.Failed?
    ensures |r.spawned| <= (if phase.InstallingRuntime? then 2 else if phase.InstallingDev? then 1 else 0)
    ensures forall i :: 0 <= i < |r.spawned| ==> r.spawned[i].command == "npm"
    decreases if phase.InstallingRuntime? then 2 else if phase.InstallingDev? then 1 else 0
  {
    if phase.Done? || phase.Failed? then PhaseRun([], {}, phase)
    else
      var (next, spawned) := Step(phase, opts, packages, installer);
      var rest := Drive(next, opts, packages, installer);
      match spawned
      case None => PhaseRun(rest.spawned, rest.created, rest.outcome)
      case Some(inv) => PhaseRun([inv] + rest.spawned, installer(inv).created + rest.created, rest.outcome)
  }

  /**
   * `run`'s install chain, starting with the runtime packages. It ends in a
   * terminal phase after at most two installs, and only npm is ever spawned.
   */
  function InstallPhases(opts: Options, packages: Packages, installer: Invocation -> Completion): (r: PhaseRun)
    ensures r.outcome.Done? || r.outcome.Failed?
    ensures |r.spawned| <= 2
    ensures forall i :: 0 <= i < |r.spawned| ==> r.spawned[i].command == "npm"
  {
    Drive(InstallingRuntime, opts, packages, installer)
  }

  /** The runtime install `run` spawns first. */
  function RuntimeInvocation(opts: Options, packages: Packages): Invocation {
    Invocation("npm", NpmArgs(packages.runtime, false, opts.verbose))
  }

  /** The development install `run` spawns second, if at all. */
  function DevInvocation(opts: Options, packages: Packages): Invocation {
    Invocation("npm", NpmArgs(packages.development, true, opts.verbose))
  }

  // ---------------------------------------------------------------------
  // Properties of the phase sequencing

  /** With Yarn nothing is spawned and the chain ends in an unexpected error. */
  lemma YarnAlwaysFails(opts: Options, packages: Packages, installer: Invocation -> Completion)
    requires opts.useYarn
    ensures InstallPhases(opts, packages, installer) == PhaseRun([], {}, Failed(UnexpectedError))
  {
  }

  /**
   * The whole transition table with npm: a failed runtime install ends the
   * chain; a successful one ends it unless `dev` is set, and then the
   * development install's exit code decides.
   */
  lemma PhasesWithNpm(opts: Options, packages: Packages, installer: Invocation -> Completion)
    requires !opts.useYarn
    ensures var r := InstallPhases(opts, packages, installer);
            var prod := RuntimeInvocation(opts, packages);
            var dev := DevInvocation(opts, packages);
            if installer(prod).code != 0 then
              r == PhaseRun([prod], installer(prod).created, Failed(CommandFailed(CommandLine(prod))))
            else if !opts.dev then
              r == PhaseRun([prod], installer(prod).created, Done)
            else
              r == PhaseRun([prod, dev], installer(prod).created + installer(dev).created,
                            if installer(dev).code != 0 then Failed(CommandFailed(CommandLine(dev))) else Done)
  {
    var prod := RuntimeInvocation(opts, packages);
    assert PhaseCommand(InstallingRuntime, opts, packages) == Success(prod);
    if installer(prod).code == 0 && opts.dev {
      var dev := DevInvocation(opts, packages);
      assert PhaseCommand(InstallingDev, opts, packages) == Success(dev);
      var rest := Drive(InstallingDev, opts, packages, installer);
      assert rest.spawned == [dev];
      assert rest.created == installer(dev).created;
    }
  }

  /**
   * With npm the runtime install is spawned first; the development install is
   * spawned second exactly when `dev` is set and the runtime install exited
   * with 0; nothing else is ever spawned.
   */
  lemma {:induction false} DevInstallOnlyAfterRuntimeSuccess(opts: Options, packages: Packages, installer: Invocation -> Completion)
    requires !opts.useYarn
    ensures var r := InstallPhases(opts, packages, installer);
            1 <= |r.spawned| <= 2 && r.spawned[0] == RuntimeInvocation(opts, packages) &&
            (|r.spawned| == 2 <==> opts.dev && installer(RuntimeInvocation(opts, packages)).code == 0) &&
            (|r.spawned| == 2 ==> r.spawned[1] == DevInvocation(opts, packages))
  {
    var prod := RuntimeInvocation(opts, packages);
    assert Step(InstallingRuntime, opts, packages, installer).1 == Some(prod);
    if installer(prod).code == 0 && opts.dev {
      var dev := DevInvocation(opts, packages);
      assert Step(InstallingDev, opts, packages, installer).1 == Some(dev);
    }
  }

  /** A failed runtime install aborts with its command line and no development install. */
  lemma RuntimeFailureSkipsDev(opts: Options, packages: Packages, installer: Invocation -> Completion)
    requires !opts.useYarn && installer(RuntimeInvocation(opts, packages)).code != 0
    ensures var r := InstallPhases(opts, packages, installer);
            r.spawned == [RuntimeInvocation(opts, packages)] &&
            r.outcome == Failed(CommandFailed(CommandLine(RuntimeInvocation(opts, packages))))
  {
    var prod := RuntimeInvocation(opts, packages);
    assert Step(InstallingRuntime, opts, packages, installer) == (Failed(CommandFailed(CommandLine(prod))), Some(prod));
  }

  /** The chain is done exactly when every spawned install exited with 0. */
  lemma {:induction false} DoneIffEveryInstallSucceeded(opts: Options, packages: Packages, installer: Invocation -> Completion)
    ensures var r := InstallPhases(opts, packages, installer);
            r.outcome.Done? <==> !opts.useYarn && forall i :: 0 <= i < |r.spawned| ==> installer(r.spawned[i]).code == 0
  {
    if !opts.useYarn {
      DevInstallOnlyAfterRuntimeSuccess(opts, packages, installer);
      var prod := RuntimeInvocation(opts, packages);
      assert Step(InstallingRuntime, opts, packages, installer).1 == Some(prod);
      if installer(prod).code == 0 && opts.dev {
        assert Step(InstallingDev, opts, packages, installer).1 == Some(DevInvocation(opts, packages));
      }
    }
  }
}
