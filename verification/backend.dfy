/**
 * Two small decisions made before installing: whether Yarn Plug'n'Play stays
 * on for the reported Yarn version, and whether a freshly started npm process
 * sees the same working directory as the script.
 */
module Backend {
  import opened Wrappers
  import opened Strings

  /**
   * A version as the version comparison reads it: the numeric core and whether
   * a pre-release tag follows it. The tag's own identifiers are not modelled.
   */
  datatype Version = Version(major: nat, minor: nat, patch: nat, prerelease: bool)

  /**
   * Precedence of Semantic Versioning 2.0.0, section 11, against a bound that
   * carries no pre-release tag: the cores compare numerically, field by field,
   * and on equal cores a pre-release precedes the release.
   */
  predicate Precedes(a: Version, b: Version)
    requires !b.prerelease
  {
    a.major < b.major
    || (a.major == b.major && a.minor < b.minor)
    || (a.major == b.major && a.minor == b.minor && a.patch < b.patch)
    || (a.major == b.major && a.minor == b.minor && a.patch == b.patch && a.prerelease)
  }

  /** Between two releases, exactly one precedes the other unless they are equal. */
  lemma PrecedesTrichotomy(a: Version, b: Version)
    requires !a.prerelease && !b.prerelease
    ensures a == b || Precedes(a, b) != Precedes(b, a)
  {
  }

  /** The first Yarn release whose Plug'n'Play works with the generated project. */
  const MinYarnPnp: Version := Version(1, 12, 0, false)

  /** From this release on Yarn uses Plug'n'Play by default and rejects the flag. */
  const MaxYarnPnp: Version := Version(2, 0, 0, false)

  /**
   * What `yarnpkg --version` printed (trimmed), and the version the comparison
   * reads from it: the whole text when it is a valid version, otherwise the
   * part before the first `-` or `+`; `None` when neither is a version, in
   * which case the comparison throws and both flags stay false.
   */
  datatype YarnReport = YarnReport(text: string, core: Option<Version>)

  /** The two flags of `checkYarnVersion`: at least 1.12.0, and below 2.0.0. */
  function YarnPnpFlags(report: Option<YarnReport>): (flags: (bool, bool))
    ensures report.None? ==> flags == (false, false)
    ensures flags.0 || flags.1 ==> report.Some? && report.value.core.Some?
  {
    match report
    case None => (false, false)
    case Some(r) =>
      match r.core
      case None => (false, false)
      case Some(v) => (!Precedes(v, MinYarnPnp), Precedes(v, MaxYarnPnp))
  }

  /**
   * The versions Plug'n'Play is kept for, written out field by field: from
   * 1.12.0 up to and including the pre-releases of 2.0.0.
   */
  predicate InPnpRange(v: Version) {
    (v.major == 1 && v.minor >= 12 && !(v.minor == 12 && v.patch == 0 && v.prerelease))
    || (v.major == 2 && v.minor == 0 && v.patch == 0 && v.prerelease)
  }

  /**
   * The `--use-pnp` flag after the Yarn version check. The check runs only for
   * Yarn, and only a non-empty reported version can turn the flag off.
   */
  function EffectivePnp(useYarn: bool, usePnp: bool, report: Option<YarnReport>): (pnp: bool)
    ensures pnp ==> usePnp
    ensures pnp <==> usePnp && (!useYarn || report.None? || report.value.text == ""
                                || (report.value.core.Some? && InPnpRange(report.value.core.value)))
  {
    if !useYarn || !usePnp then usePnp
    else if report.None? || report.value.text == "" then usePnp
    else
      var (hasMin, hasMax) := YarnPnpFlags(report);
      hasMin && hasMax
  }

  /** With no readable Yarn version the flag is passed through unchanged. */
  lemma UnavailableProbeKeepsPnp(useYarn: bool, usePnp: bool)
    ensures EffectivePnp(useYarn, usePnp, None) == usePnp
  {
  }

  // ---------------------------------------------------------------------
  // checkThatNpmCanReadCwd

  /** The line of `npm config list` that names npm's working directory. */
  const CwdPrefix: string := "; cwd = "

  /** `lines.find(line => line.startsWith(prefix))`, as the index of that line. */
  function FindWithPrefix(lines: seq<string>, prefix: string): (r: Option<nat>)
    ensures r.Some? ==> r.value < |lines| && prefix <= lines[r.value]
    ensures r.Some? ==> forall j :: 0 <= j < r.value ==> !(prefix <= lines[j])
    ensures r.None? <==> forall j :: 0 <= j < |lines| ==> !(prefix <= lines[j])
  {
    if lines == [] then None
    else if prefix <= lines[0] then Some(0)
    else
      match FindWithPrefix(lines[1..], prefix)
      case None => None
      case Some(k) => Some(k + 1)
  }

  /**
   * Whether the first line of `output` that starts with `prefix` continues with
   * exactly `expected`; output without such a line passes.
   */
  function FirstPrefixedLineIs(output: string, prefix: string, expected: string): bool {
    var lines := Split(output, '\n');
    match FindWithPrefix(lines, prefix)
    case None => true
    case Some(i) => lines[i][|prefix|..] == expected
  }

  /**
   * Whether npm reads the right working directory. `childOutput` is the
   * joined output of `npm config list`, or `None` when spawning failed or gave
   * no string; that case, and output without a `; cwd = ` line, pass.
   */
  function NpmCanReadCwd(cwd: string, childOutput: Option<string>): (ok: bool)
    ensures childOutput.None? ==> ok
  {
    match childOutput
    case None => true
    case Some(output) => FirstPrefixedLineIs(output, CwdPrefix, cwd)
  }

  /** The first line carrying the prefix is the one `find` returns. */
  lemma FindWithPrefixIsFirst(lines: seq<string>, prefix: string, i: nat)
    requires i < |lines| && prefix <= lines[i]
    requires forall j :: 0 <= j < i ==> !(prefix <= lines[j])
    ensures FindWithPrefix(lines, prefix) == Some(i)
  {
    var r := FindWithPrefix(lines, prefix);
    assert r.Some? ==> !(r.value < i);
    assert r.Some? ==> !(i < r.value);
  }

  /**
   * For output made of lines: the check fails exactly when the first line
   * starting with the prefix is not the prefix followed by `expected`.
   */
  lemma PrefixedLineCheckOnLines(lines: seq<string>, prefix: string, expected: string)
    requires |lines| >= 1
    requires forall i :: 0 <= i < |lines| ==> '\n' !in lines[i]
    ensures !FirstPrefixedLineIs(Join(lines, "\n"), prefix, expected) <==>
            exists i :: 0 <= i < |lines| && prefix <= lines[i] && lines[i] != prefix + expected
                        && forall j :: 0 <= j < i ==> !(prefix <= lines[j])
  {
    SplitJoin(lines, '\n');
    assert Split(Join(lines, "\n"), '\n') == lines;
    forall i | 0 <= i < |lines| && prefix <= lines[i] && forall j :: 0 <= j < i ==> !(prefix <= lines[j])
      ensures lines[i] != prefix + expected <==> lines[i][|prefix|..] != expected
    {
      FindWithPrefixIsFirst(lines, prefix, i);
      PrefixThenRest(lines[i], prefix);
    }
  }

  /**
   * `npm config list` output given as lines: npm is in the wrong directory
   * exactly when its first `; cwd = ` line names a directory other than `cwd`.
   */
  lemma CwdCheckOnLines(cwd: string, lines: seq<string>)
    requires |lines| >= 1
    requires forall i :: 0 <= i < |lines| ==> '\n' !in lines[i]
    ensures !NpmCanReadCwd(cwd, Some(Join(lines, "\n"))) <==>
            exists i :: 0 <= i < |lines| && CwdPrefix <= lines[i] && lines[i] != CwdPrefix + cwd
                        && forall j :: 0 <= j < i ==> !(CwdPrefix <= lines[j])
  {
    PrefixedLineCheckOnLines(lines, CwdPrefix, cwd);
  }
}
