# create-proem-ui-app bootstrap, modelled in Dafny

`createProemUIApp.js` creates a new Proem UI project. It checks the project
name, makes sure the target directory holds nothing that could conflict, and
installs the runtime and then the development packages with npm. It rolls
back what it generated when an install fails. The module also exports
`getTemplateInstallPackage`, which turns a template reference into the
identifier a package manager would install; the script itself never calls it.

This project models the core of that script:

- `TemplateResolver` (`template.dfy`) covers `getTemplateInstallPackage`. The
  package pattern `^(@[^/]+\/)?([^@]+)?(@.+)?$` has two forms:
  - `ParsePackage` is the split the JavaScript regex engine computes,
    including its backtracking.
  - `Matches` is the declarative meaning of the pattern.

  The parser is proved sound, complete, scope-preferring and unique. The
  decision table is proved for each of its branches, including a scope with
  an empty name (`@org/` becomes `@org/cpuia-template-`) and version-only
  splits that contain '/' (`@a/b@` becomes `@a/b@/cpuia-template`).
- `Preflight` (`preflight.dfy`) covers the verdict of
  `isSafeToCreateProjectIn`: the allow-list, `.iml` module files, the
  error-log prefixes, the three filter passes and the clean-up result.
- `AppName` (`appname.dfy`) covers the dependency-collision half of
  `checkAppName`, over the two literal dependency lists and their default
  `.sort()` order.
- `Install` (`install.dfy`) covers the argument list `install` builds, the
  command line a rejection carries, and the promise chain of `run`. The chain
  is an explicit state machine:
  - `InstallingRuntime` goes to `InstallingDev`, `Done` or `Failed`.
  - `InstallingDev` goes to `Done` or `Failed`.
- `Bootstrap.Workspace` (`workspace.dfy`) is the state the script changes in
  place: the entries of the project root, whether the root exists, the
  working directory, the spawned installers and the exit status. Its methods
  are the parts that change it:
  - the error-log deletion loop;
  - `install`;
  - the nested rollback loops of `run`'s catch handler;
  - `run` itself.

  Each method is proved against the pure definitions above.
- `Backend` (`backend.dfy`) covers the Yarn Plug'n'Play downgrade rule and the
  `; cwd = ` check of `checkThatNpmCanReadCwd`. Versions compare as in
  section 11 of Semantic Versioning 2.0.0.
- `Strings` and `Wrappers` are helpers. They provide `startsWith`,
  `endsWith`, `includes`, `indexOf`, `join` and `split`, plus `Option` and
  `Result`.

The outside world comes in as parameters:

- `path.resolve` is an uninterpreted function `resolvePath`.
- The spawned package manager is an oracle `installer: Invocation ->
  Completion`. It gives an exit code and the entries it leaves in the root.
- `validate-npm-package-name` is the boolean `validForNewPackages`.
- The output of `yarnpkg --version` is a `YarnReport` and the output of
  `npm config list` is an optional string.

Two places where the model follows the code rather than its comments or its
apparent intent:

- The comments in `getTemplateInstallPackage` speak of `cra-template-`. The
  code prefixes `cpuia-template`, and so does the model.
- The Yarn branch of `install` appends the undeclared name
  `prodDependencies`. The promise executor therefore throws a ReferenceError
  before anything is spawned. The rejection has no `command`, so `run`'s
  catch handler reports an unexpected error and rolls back. The model does
  exactly that: `InstallCommand` fails with `UnexpectedError` for Yarn, and
  `Install.YarnAlwaysFails` shows the whole chain then spawns nothing.

## Model

| member | source | states |
|---|---|---|
| TemplateResolver.ParsePackage | packages/create-proem-ui-develop/createProemUIApp.js:620-623 | the captures the engine returns, computed with `ParseScoped` and `ParseRest`; ParseSound, ParseComplete and ParsePrefersScope below tie them to the pattern |
| TemplateResolver.ParseSound | packages/create-proem-ui-develop/createProemUIApp.js:621-624 | every split the parser returns is a way the package pattern covers the whole reference, with each capture in its group's language |
| TemplateResolver.ParseComplete | packages/create-proem-ui-develop/createProemUIApp.js:621 | the parser finds a split whenever the pattern can match, so a null match means no match exists |
| TemplateResolver.ParsePrefersScope | packages/create-proem-ui-develop/createProemUIApp.js:621-624 | when a match with a scope group exists, that match is the captures the engine returns |
| TemplateResolver.ParseUnscopedIsUnique | packages/create-proem-ui-develop/createProemUIApp.js:621-624 | an unscoped split is returned only when it is the only way the pattern matches |
| TemplateResolver.ParseRestComplete | packages/create-proem-ui-develop/createProemUIApp.js:621-624 | the name and version captures are determined by the text after the scope |
| TemplateResolver.ScopeEndsAtFirstSlash | packages/create-proem-ui-develop/createProemUIApp.js:621 | a scope capture `@…/` always ends at the first '/' of the reference |
| TemplateResolver.UnscopedParse | packages/create-proem-ui-develop/createProemUIApp.js:621-624 | a reference not starting with '@' splits into name and version with an empty scope |
| TemplateResolver.Rewrite | packages/create-proem-ui-develop/createProemUIApp.js:625-643 | the decision table on the captures; every branch keeps the scope in front and yields an identifier that names a `cpuia-template` package |
| TemplateResolver.ResolveTemplate | packages/create-proem-ui-develop/createProemUIApp.js:600-647 | no template, or an empty one, yields `cpuia-template`; any identifier produced is non-empty |
| TemplateResolver.FileReferenceResolved | packages/create-proem-ui-develop/createProemUIApp.js:606-610 | a `file:` reference yields `file:` plus its remainder resolved against the original directory; it fails when the remainder is empty or holds a line break |
| TemplateResolver.DirectTargetPassesThrough | packages/create-proem-ui-develop/createProemUIApp.js:611-616 | a reference containing `://` or ending in `.tgz`/`.tar.gz` is returned unchanged |
| TemplateResolver.PackageReferenceFails | packages/create-proem-ui-develop/createProemUIApp.js:617-624 | a package-style reference fails exactly when no split of it matches the pattern |
| TemplateResolver.PrefixedNamePassesThrough | packages/create-proem-ui-develop/createProemUIApp.js:626-634 | a name equal to `cpuia-template` or starting with `cpuia-template-` reproduces the reference unchanged, never prefixed twice |
| TemplateResolver.VersionOnlyShorthand | packages/create-proem-ui-develop/createProemUIApp.js:635-637 | any reference only the version group can cover, such as `@a/b@`, becomes that text followed by `/cpuia-template` |
| TemplateResolver.ScopeOnlyShorthand | packages/create-proem-ui-develop/createProemUIApp.js:635-637 | a bare `@scope` becomes `@scope/cpuia-template` |
| TemplateResolver.ShortNameIsPrefixed | packages/create-proem-ui-develop/createProemUIApp.js:638-643 | any other name, including an empty name after a scope (`@org/@1.0` becomes `@org/cpuia-template-@1.0`), becomes scope + `cpuia-template-` + name + version |
| TemplateResolver.PlainNameIsPackageStyle | packages/create-proem-ui-develop/createProemUIApp.js:606-616 | a reference with neither ':' nor '.' is neither a file reference nor a URL nor an archive |
| TemplateResolver.CustomIsPrefixed | packages/create-proem-ui-develop/createProemUIApp.js:638-643 | `custom` resolves to `cpuia-template-custom` |
| TemplateResolver.PrefixedExtensionUnchanged | packages/create-proem-ui-develop/createProemUIApp.js:626-634 | `cpuia-template-<plain suffix>` resolves to itself |
| Strings.IndexOf | packages/create-proem-ui-develop/createProemUIApp.js:621 | the index of the first occurrence of the character, or the length when it is absent |
| Strings.Split | packages/create-proem-ui-develop/createProemUIApp.js:877 | `split('\n')` gives at least one part, no part holds the separator, and joining the parts restores the text |
| Strings.SplitJoin | packages/create-proem-ui-develop/createProemUIApp.js:877 | splitting undoes joining for parts free of the separator |
| Strings.JoinAppend | packages/create-proem-ui-develop/createProemUIApp.js:460 | joining two non-empty lists puts exactly one separator between their joins |
| Preflight.IsErrorLog | packages/create-proem-ui-develop/createProemUIApp.js:797-799 | a name is an error log when it starts with one of the three log prefixes; WithoutErrorLogs and NoConflictsIffSafe state what follows from it |
| Preflight.IsSafe | packages/create-proem-ui-develop/createProemUIApp.js:809-840 | the verdict: every entry is allow-listed, a module file or an error log; NoConflictsIffSafe proves it equals an empty conflict list |
| Preflight.Filter | packages/create-proem-ui-develop/createProemUIApp.js:801-807 | `filter` keeps exactly the listed names the predicate accepts, and keeps everything when it accepts all |
| Preflight.Conflicts | packages/create-proem-ui-develop/createProemUIApp.js:801-807 | the conflict list holds exactly the listed entries that are not allow-listed, not `.iml` files and not error logs |
| Preflight.WithoutErrorLogs | packages/create-proem-ui-develop/createProemUIApp.js:834-838 | clean-up keeps an entry exactly when it is not an error log |
| Preflight.NoConflictsIffSafe | packages/create-proem-ui-develop/createProemUIApp.js:809-840 | a listing of the directory has no conflicts exactly when every entry is tolerated |
| Preflight.PreflightIdempotent | packages/create-proem-ui-develop/createProemUIApp.js:834-840 | a second pre-flight on what a safe one left is safe and removes nothing more |
| AppName.Insert | packages/create-proem-ui-develop/createProemUIApp.js:386 | insertion keeps the list sorted and adds exactly one name |
| AppName.Sort | packages/create-proem-ui-develop/createProemUIApp.js:386 | `.sort()` returns a sorted permutation of its input |
| AppName.SortKeepsNames | packages/create-proem-ui-develop/createProemUIApp.js:386 | sorting keeps exactly the names it was given |
| AppName.ReservedNames | packages/create-proem-ui-develop/createProemUIApp.js:386 | the reserved list is sorted and holds exactly the names of both dependency lists |
| AppName.CheckAppName | packages/create-proem-ui-develop/createProemUIApp.js:366-399 | a name passes exactly when npm accepts it and it is in neither dependency list; an npm-invalid name is reported first; the printed list is the sorted union of both dependency lists |
| AppName.ReactIsReserved | packages/create-proem-ui-develop/createProemUIApp.js:31-32 | `react` cannot name a project |
| Install.NpmArgs | packages/create-proem-ui-develop/createProemUIApp.js:431-454 | npm arguments start with `install --save-exact --loglevel error` and then the packages; `--save-dev` follows iff dev and `--verbose` iff verbose, last |
| Install.InstallCommand | packages/create-proem-ui-develop/createProemUIApp.js:402-456 | npm is spawned with the argument list above; the Yarn branch fails with an unexpected error and spawns nothing |
| Install.CommandLine | packages/create-proem-ui-develop/createProemUIApp.js:460 | the rejection text `${command} ${args.join(' ')}`; CommandLineWords shows it keeps the words apart |
| Install.CommandLineWords | packages/create-proem-ui-develop/createProemUIApp.js:460 | when no word holds a space, splitting the command line at spaces gives back the command followed by its arguments |
| Install.NpmCommandLineHead | packages/create-proem-ui-develop/createProemUIApp.js:457-461 | an npm command line is `npm`, a space and the joined fixed head, followed by the rest |
| Install.NpmCommandLinePrefix | packages/create-proem-ui-develop/createProemUIApp.js:457-461 | the command line a failed npm install reports starts with `npm install --save-exact --loglevel error` |
| Install.NpmPrefixText | packages/create-proem-ui-develop/createProemUIApp.js:431-438 | the fixed head of the npm arguments joins to `install --save-exact --loglevel error` |
| Install.Settle | packages/create-proem-ui-develop/createProemUIApp.js:457-467 | an install resolves exactly on exit code 0, otherwise it rejects with its command line |
| Install.Step | packages/create-proem-ui-develop/createProemUIApp.js:484-551 | no phase returns to the runtime install; the development phase follows only the runtime phase and only when dev is set |
| Install.Drive | packages/create-proem-ui-develop/createProemUIApp.js:484-551 | the chain always ends in Done or Failed |
| Install.InstallPhases | packages/create-proem-ui-develop/createProemUIApp.js:484-551 | the chain ends in Done or Failed after at most two installs, and only npm is ever spawned; PhasesWithNpm gives its full table |
| Install.YarnAlwaysFails | packages/create-proem-ui-develop/createProemUIApp.js:406-415 | with Yarn nothing is spawned and the chain fails with an unexpected error |
| Install.PhasesWithNpm | packages/create-proem-ui-develop/createProemUIApp.js:484-551 | the full transition table with npm: what is spawned, what is created and the outcome, for each exit code and dev flag |
| Install.DevInstallOnlyAfterRuntimeSuccess | packages/create-proem-ui-develop/createProemUIApp.js:484-538 | the runtime install is spawned first, and the development install is spawned second iff dev is set and the runtime install exited with 0 |
| Install.RuntimeFailureSkipsDev | packages/create-proem-ui-develop/createProemUIApp.js:457-467 | a failed runtime install ends the chain with its command line and no development install |
| Install.DoneIffEveryInstallSucceeded | packages/create-proem-ui-develop/createProemUIApp.js:484-551 | the chain completes exactly when npm is used and every spawned install exited with 0 |
| Bootstrap.Workspace.constructor | packages/create-proem-ui-develop/createProemUIApp.js:228 | a freshly ensured project root exists with the given entries; nothing is spawned and no exit status is set |
| Bootstrap.Workspace.ListEntries | packages/create-proem-ui-develop/createProemUIApp.js:802 | `readdirSync` lists every entry exactly once |
| Bootstrap.Workspace.RemoveEntry | packages/create-proem-ui-develop/createProemUIApp.js:837 | `removeSync` deletes exactly the named entry |
| Bootstrap.Workspace.RemoveRoot | packages/create-proem-ui-develop/createProemUIApp.js:591 | removing the root leaves no directory and no entries |
| Bootstrap.Workspace.RemoveErrorLogs | packages/create-proem-ui-develop/createProemUIApp.js:834-838 | the deletion loop leaves exactly the entries that are not error logs |
| Bootstrap.Workspace.IsSafeToCreateProjectIn | packages/create-proem-ui-develop/createProemUIApp.js:771-841 | the verdict is safe iff every entry is tolerated; unsafe deletes nothing; safe deletes exactly the error logs |
| Bootstrap.Workspace.Install | packages/create-proem-ui-develop/createProemUIApp.js:402-470 | builds the npm arguments by pushes and spawns once, recording the invocation and what it created, then settles on the exit code; Yarn spawns nothing and rejects |
| Bootstrap.Workspace.AbortInstallation | packages/create-proem-ui-develop/createProemUIApp.js:552-596 | rollback deletes exactly the four known generated names and keeps every other entry; it deletes the root, after moving to its parent, iff nothing remains; it exits with status 1 |
| Bootstrap.Workspace.InstallChain | packages/create-proem-ui-develop/createProemUIApp.js:484-551 | spawns and creates exactly what the phase machine says, and rejects exactly when it fails |
| Bootstrap.Workspace.Run | packages/create-proem-ui-develop/createProemUIApp.js:472-598 | on success the root keeps the old entries plus what the installers created and nothing exits; on failure it is rolled back as above and the status is 1 |
| Backend.Precedes | packages/create-proem-ui-develop/createProemUIApp.js:711-722 | the version comparison against a release bound, field by field, with a pre-release below its release |
| Backend.PrecedesTrichotomy | packages/create-proem-ui-develop/createProemUIApp.js:711-722 | of two different releases exactly one precedes the other |
| Backend.YarnPnpFlags | packages/create-proem-ui-develop/createProemUIApp.js:703-733 | without a readable version both `hasMinYarnPnp` and `hasMaxYarnPnp` stay false |
| Backend.EffectivePnp | packages/create-proem-ui-develop/createProemUIApp.js:302-325 | the Yarn check can only turn `--use-pnp` off, and does so exactly for a non-empty reported version outside 1.12.0 up to the pre-releases of 2.0.0 |
| Backend.UnavailableProbeKeepsPnp | packages/create-proem-ui-develop/createProemUIApp.js:303-304 | when no Yarn version could be read the flag is unchanged |
| Backend.FindWithPrefix | packages/create-proem-ui-develop/createProemUIApp.js:882 | `find` returns the first line carrying the prefix, or none when no line does |
| Backend.FindWithPrefixIsFirst | packages/create-proem-ui-develop/createProemUIApp.js:882 | the first line carrying the prefix is the one `find` returns |
| Backend.FirstPrefixedLineIs | packages/create-proem-ui-develop/createProemUIApp.js:877-889 | the first line carrying the prefix must continue with exactly the expected value, and output without one passes; PrefixedLineCheckOnLines states it on lines |
| Backend.NpmCanReadCwd | packages/create-proem-ui-develop/createProemUIApp.js:858-875 | when npm could not be spawned or gave no text, the check passes |
| Backend.PrefixedLineCheckOnLines | packages/create-proem-ui-develop/createProemUIApp.js:877-890 | output made of lines fails the check exactly when its first prefixed line differs from the prefix followed by the expected value |
| Backend.CwdCheckOnLines | packages/create-proem-ui-develop/createProemUIApp.js:877-917 | npm is in the wrong directory exactly when the first `; cwd = ` line names another directory |

## Left out

- Command-line parsing, help text and environment printing (`init`) are
  console and argument handling.
- `createApp` sequences the calls modelled here and writes the manifest, a
  constant object serialised with `JSON.stringify`. The order of those
  calls, the manifest, its `process.chdir(root)` (createProemUIApp.js:281)
  and, under Yarn, the copy of `yarn.lock.cached` into the root
  (createProemUIApp.js:336-341) are not modelled; that copy is unreachable
  because `useYarn` is always false (see below).
- `--template`, `--use-npm` and `--use-pnp` are not registered options
  (createProemUIApp.js:115-118 registers only `--dev`, `--verbose`, `--info`
  and `--storybook`), and `run` never reads its `template` parameter. So
  `program.template`, `program.useNpm` and `program.usePnp` are always
  undefined, `getTemplateInstallPackage` is reached only through the
  module's exports, and `usePnp` is always falsy, a second reason the
  Plug'n'Play downgrade is unreachable.
- The npm naming rules of `validate-npm-package-name` belong to a foreign
  library. They are the boolean `validForNewPackages`.
- `shouldUseYarn`, `checkNpmVersion`, the Yarn registry probe and
  `checkYarnVersion` call `execSync`, which the script never imports. Their
  results are oracle inputs, not derived. As written, `shouldUseYarn`
  (createProemUIApp.js:357-364) therefore always catches the ReferenceError
  and returns false, so `useYarn` is always false: the Yarn branch of
  `install`, `Install.YarnAlwaysFails` and the downgrade in
  `Backend.EffectivePnp` describe code the script as shipped never reaches.
- `getTemporaryDirectory` and `extractStream` are never called and are stream
  I/O. `checkNodeVersion`, `getProxy` and `checkIfOnline` read the runtime,
  the environment and the network.
- Backend.Precedes: the order of two pre-release tags on the same core is not
  modelled, because both bounds it is used with are releases. Parsing a
  version string into a `Version` is part of the `YarnReport` oracle.
- Console output, colours and the conflict listing's `lstatSync` directory
  marks are not modelled.
- The directory is a set of names. The order `readdirSync` lists them in is
  not modelled, and neither are the contents of files.
- An exit by signal (code `null`) counts as a non-zero exit code.
- The `!success` branches in `run` are not modelled. `install` only ever
  resolves with `success: true`, so they cannot run.
- Strings are sequences of Unicode characters rather than UTF-16 code units.
  `.` in the patterns excludes the four JavaScript line terminators. The
  default `.sort()` (AppName.LexLessEq) therefore compares characters, where
  JavaScript compares UTF-16 code units; the two orders differ only between
  characters from U+E000 to U+FFFF and characters above U+FFFF.
- Promises are not modelled: `getTemplateInstallPackage` returns its value
  directly, and the promise chain of `run` is the state machine in `Install`.
- Bootstrap.Workspace.Run: the package lists come in as a parameter. The
  script's own lists are `AppName.ProductionDependencies` and
  `AppName.DevelopmentDependencies`.
