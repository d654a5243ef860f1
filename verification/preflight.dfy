/**
 * The pure half of the directory pre-flight (`isSafeToCreateProjectIn`):
 * which entries of an existing target directory are tolerated, the list of
 * conflicting entries, and what the clean-up of old error logs leaves. The
 * half that deletes entries is Bootstrap.Workspace.IsSafeToCreateProjectIn.
 */
module Preflight {
  import opened Strings

  /** Entries a fresh project may share its directory with. */
  const ValidFiles: seq<string> := [
    ".DS_Store", ".git", ".gitattributes", ".gitignore", ".gitlab-ci.yml",
    ".hg", ".hgcheck", ".hgignore", ".idea", ".npmignore", ".travis.yml",
    "docs", "LICENSE", "README.md", "mkdocs.yml", "Thumbs.db"
  ]

  /** Name prefixes of the logs a failed earlier run leaves behind. */
  const ErrorLogFilePatterns: seq<string> := ["npm-debug.log", "yarn-error.log", "yarn-debug.log"]

  /** `isErrorLog`: the name starts with one of the log prefixes. */
  predicate IsErrorLog(file: string) {
    exists pattern :: pattern in ErrorLogFilePatterns && pattern <= file
  }

  /** `/\.iml$/`: an IntelliJ module file. */
  predicate IsModuleFile(file: string) {
    EndsWith(file, ".iml")
  }

  /** An entry that does not make the directory unsafe. */
  predicate IsTolerated(file: string) {
    file in ValidFiles || IsModuleFile(file) || IsErrorLog(file)
  }

  /** `Array.prototype.filter` on a directory listing: keeps order and drops the rest. */
  function Filter(s: seq<string>, keep: string -> bool): (r: seq<string>)
    ensures forall x :: x in r <==> x in s && keep(x)
    ensures |r| <= |s|
    ensures (forall x :: x in s ==> keep(x)) ==> r == s
  {
    if s == [] then []
    else (if keep(s[0]) then [s[0]] else []) + Filter(s[1..], keep)
  }

  /** The three filter passes of the source, applied to one listing. */
  function Conflicts(listing: seq<string>): (conflicts: seq<string>)
    ensures forall e :: e in conflicts <==> e in listing && !IsTolerated(e)
    ensures |conflicts| <= |listing|
  {
    var notValid := Filter(listing, file => file !in ValidFiles);
    var notModule := Filter(notValid, file => !IsModuleFile(file));
    Filter(notModule, file => !IsErrorLog(file))
  }

  /** The verdict: every entry is tolerated. */
  predicate IsSafe(entries: set<string>) {
    forall e :: e in entries ==> IsTolerated(e)
  }

  /** What a safe verdict leaves in the directory. */
  function WithoutErrorLogs(entries: set<string>): (kept: set<string>)
    ensures kept <= entries
    ensures forall e :: e in entries ==> (e in kept <==> !IsErrorLog(e))
  {
    set e | e in entries && !IsErrorLog(e)
  }

  /** A listing of the directory has no conflicts exactly when the directory is safe. */
  lemma NoConflictsIffSafe(listing: seq<string>, entries: set<string>)
    requires forall e :: e in listing <==> e in entries
    ensures Conflicts(listing) == [] <==> IsSafe(entries)
  {
    var conflicts := Conflicts(listing);
    assert conflicts != [] ==> conflicts[0] in conflicts;
    if !IsSafe(entries) {
      var e :| e in entries && !IsTolerated(e);
      assert e in conflicts;
    }
  }

  /**
   * Running the pre-flight again on what a safe run left is safe again and
   * removes nothing more.
   */
  lemma PreflightIdempotent(entries: set<string>)
    requires IsSafe(entries)
    ensures IsSafe(WithoutErrorLogs(entries))
    ensures WithoutErrorLogs(WithoutErrorLogs(entries)) == WithoutErrorLogs(entries)
    ensures forall e :: e in WithoutErrorLogs(entries) ==> e in ValidFiles || IsModuleFile(e)
  {
  }
}
