/**
 * Resolution of a user-supplied template reference into the one identifier
 * handed to the package manager (`getTemplateInstallPackage`).
 *
 * The package-style branch splits the reference with the regular expression
 * `^(@[^/]+\/)?([^@]+)?(@.+)?$`. ParsePackage computes the split the
 * JavaScript engine picks; Matches is the declarative meaning of the
 * pattern (every way the three groups can cover the string), and the
 * lemmas below tie the two together.
 */
module TemplateResolver {
  import opened Wrappers
  import opened Strings

  /** The canonical template package name and the default result. */
  const TemplateBaseName: string := "cpuia-template"

  /** The three captures, each "" when its group did not take part. */
  datatype PackageRef = PackageRef(scope: string, name: string, version: string)

  /** Why the source would throw instead of returning an identifier. */
  datatype TemplateError =
    | MissingFilePath           // `file:` with nothing after it: path.resolve receives undefined
    | UnmatchedFileReference    // `file:` followed by a line break: the match is null
    | UnmatchedPackageReference // the package pattern does not match: the match is null

  // ---------------------------------------------------------------------
  // The pattern, declaratively

  /** `(@[^/]+\/)?` */
  predicate ScopeGroup(g: string) {
    g == "" ||
    (|g| >= 3 && g[0] == '@' && g[|g| - 1] == '/' && '/' !in g[1..|g| - 1])
  }

  /** `([^@]+)?` */
  predicate NameGroup(g: string) {
    '@' !in g
  }

  /** `(@.+)?` */
  predicate VersionGroup(g: string) {
    g == "" || (|g| >= 2 && g[0] == '@' && NoLineTerminator(g[1..]))
  }

  /** `t` is one way the anchored pattern covers all of `s`. */
  predicate Matches(s: string, t: PackageRef) {
    t.scope + t.name + t.version == s &&
    ScopeGroup(t.scope) && NameGroup(t.name) && VersionGroup(t.version)
  }

  // ---------------------------------------------------------------------
  // The split the regex engine computes

  /** Name and version groups of what follows the scope. */
  function ParseRest(r: string): Option<(string, string)> {
    var n := IndexOf(r, '@');
    if n == |r| then Some((r, ""))
    else if |r| - n >= 2 && NoLineTerminator(r[n + 1..]) then Some((r[..n], r[n..]))
    else None
  }

  /**
   * The captures of `^(@[^/]+\/)?([^@]+)?(@.+)?$`, or None when the match is
   * null. The scope group is tried first; only when the rest cannot be split
   * after it does the engine backtrack to an empty scope.
   */
  function ParsePackage(s: string): Option<PackageRef> {
    var scoped := ParseScoped(s);
    if scoped.Some? then scoped
    else
      match ParseRest(s)
      case None => None
      case Some((name, version)) => Some(PackageRef("", name, version))
  }

  /** The attempt with the scope group taking part: it ends at the first '/'. */
  function ParseScoped(s: string): Option<PackageRef> {
    var k := IndexOf(s, '/');
    if |s| > 0 && s[0] == '@' && 2 <= k < |s| then
      match ParseRest(s[k + 1..])
      case None => None
      case Some((name, version)) => Some(PackageRef(s[..k + 1], name, version))
    else None
  }

  lemma ParseRestSound(r: string)
    requires ParseRest(r).Some?
    ensures ParseRest(r).value.0 + ParseRest(r).value.1 == r
    ensures NameGroup(ParseRest(r).value.0) && VersionGroup(ParseRest(r).value.1)
  {
    var n := IndexOf(r, '@');
    if n < |r| {
      assert r[..n] + r[n..] == r;
    }
  }

  /** Name and version groups are determined by the string they cover. */
  lemma ParseRestComplete(name: string, version: string)
    requires NameGroup(name) && VersionGroup(version)
    ensures ParseRest(name + version) == Some((name, version))
  {
    var r := name + version;
    assert r[..|name|] == name;
    assert r[|name|..] == version;
    assert IndexOf(r, '@') == |name| by {
      assert forall i :: 0 <= i < |name| ==> r[i] == name[i];
      assert version != "" ==> r[|name|] == '@';
    }
    if version != "" {
      assert r[|name| + 1..] == version[1..];
      assert |r| - |name| >= 2;
      assert NoLineTerminator(r[|name| + 1..]);
      assert ParseRest(r) == Some((r[..|name|], r[|name|..]));
      assert r[..|name|] == name && r[|name|..] == version;
    } else {
      assert r == name;
    }
  }

  /** A non-empty scope group ends at the first '/' of the string. */
  lemma ScopeEndsAtFirstSlash(scope: string, rest: string)
    requires ScopeGroup(scope) && scope != ""
    ensures IndexOf(scope + rest, '/') == |scope| - 1
    ensures (scope + rest)[..|scope|] == scope && (scope + rest)[|scope|..] == rest
  {
    var s := scope + rest;
    assert forall i :: 0 <= i < |scope| ==> s[i] == scope[i];
    assert s[..|scope|] == scope;
    assert s[|scope|..] == rest;
  }

  /** Up to and including its first '/', an '@'-led string is a scope group. */
  lemma ScopeBeforeFirstSlash(s: string)
    requires |s| > 0 && s[0] == '@' && 2 <= IndexOf(s, '/') < |s|
    ensures ScopeGroup(s[..IndexOf(s, '/') + 1])
  {
  }

  /** Whatever ParsePackage returns is a way the pattern matches. */
  lemma {:induction false} ParseSound(s: string)
    requires ParsePackage(s).Some?
    ensures Matches(s, ParsePackage(s).value)
  {
    if ParseScoped(s).Some? {
      var k := IndexOf(s, '/');
      ParseRestSound(s[k + 1..]);
      ScopeBeforeFirstSlash(s);
      TakeDropConcat(s, k + 1);
    } else {
      ParseRestSound(s);
    }
  }

  /** The match is null only when the pattern cannot match at all. */
  lemma {:induction false} ParseComplete(s: string, t: PackageRef)
    requires Matches(s, t)
    ensures ParsePackage(s).Some?
  {
    if t.scope == "" {
      assert s == t.name + t.version;
      ParseRestComplete(t.name, t.version);
    } else {
      ParsePrefersScope(s, t);
    }
  }

  /** A string that does not start with '@' can only be split without a scope. */
  lemma UnscopedParse(name: string, version: string)
    requires NameGroup(name) && name != "" && VersionGroup(version)
    ensures ParsePackage(name + version) == Some(PackageRef("", name, version))
  {
    assert (name + version)[0] == name[0];
    ParseRestComplete(name, version);
  }

  /** When a match with a scope exists, that is the one the engine picks. */
  lemma {:induction false} ParsePrefersScope(s: string, t: PackageRef)
    requires Matches(s, t) && t.scope != ""
    ensures ParsePackage(s) == Some(t)
  {
    ScopeEndsAtFirstSlash(t.scope, t.name + t.version);
    assert s == t.scope + (t.name + t.version);
    ParseRestComplete(t.name, t.version);
  }

  /** An unscoped split is returned only when it is the sole match. */
  lemma {:induction false} ParseUnscopedIsUnique(s: string, t: PackageRef)
    requires Matches(s, t) && ParsePackage(s).Some? && ParsePackage(s).value.scope == ""
    ensures ParsePackage(s) == Some(t)
  {
    if t.scope != "" {
      ParsePrefersScope(s, t);
    } else {
      assert s == t.name + t.version;
      ParseRestComplete(t.name, t.version);
    }
  }

  // ---------------------------------------------------------------------
  // The resolver

  /** `^.+\.ext$` for one of the two archive extensions. */
  predicate ArchiveWith(s: string, ext: string) {
    |s| > |ext| && EndsWith(s, ext) && NoLineTerminator(s[..|s| - |ext|])
  }

  /** `template.includes('://') || template.match(/^.+\.(tgz|tar\.gz)$/)` */
  predicate IsDirectTarget(s: string) {
    Contains(s, "://") || ArchiveWith(s, ".tgz") || ArchiveWith(s, ".tar.gz")
  }

  /** A reference handled by the package-name decision table. */
  predicate IsPackageStyle(s: string) {
    s != "" && !("file:" <= s) && !IsDirectTarget(s)
  }

  /**
   * The three-way decision table on the captures, in the source's order.
   * Whatever the branch, the identifier keeps the scope in front and names a
   * `cpuia-template` package.
   */
  function Rewrite(t: PackageRef): (r: string)
    ensures t.scope <= r
    ensures Contains(r, TemplateBaseName)
  {
    if t.name == TemplateBaseName || TemplateBaseName + "-" <= t.name then
      assert TemplateBaseName <= t.name by {
        if t.name != TemplateBaseName {
          assert (TemplateBaseName + "-")[..|TemplateBaseName|] == TemplateBaseName;
        }
      }
      var tail := t.name[|TemplateBaseName|..] + t.version;
      PrefixThenRest(t.name, TemplateBaseName);
      assert t.scope + t.name + t.version == t.scope + TemplateBaseName + tail;
      ContainsInfix(t.scope, TemplateBaseName, tail);
      t.scope + t.name + t.version
    else if t.version != "" && t.scope == "" && t.name == "" then
      assert t.version + "/" + TemplateBaseName == (t.version + "/") + TemplateBaseName + "";
      ContainsInfix(t.version + "/", TemplateBaseName, "");
      t.version + "/" + TemplateBaseName
    else
      var tail := "-" + t.name + t.version;
      assert t.scope + TemplateBaseName + "-" + t.name + t.version == t.scope + TemplateBaseName + tail;
      ContainsInfix(t.scope, TemplateBaseName, tail);
      t.scope + TemplateBaseName + "-" + t.name + t.version
  }

  /**
   * `getTemplateInstallPackage(template, originalDirectory)`. An absent and an
   * empty template are both falsy in the source; `resolvePath` is
   * `path.resolve`, left uninterpreted.
   */
  function ResolveTemplate(template: Option<string>, originalDirectory: string,
                           resolvePath: (string, string) -> string): (r: Result<string, TemplateError>)
    ensures template.None? || template == Some("") ==> r == Success(TemplateBaseName)
    ensures r.Success? ==> r.value != ""
  {
    if template.None? || template.value == "" then Success(TemplateBaseName)
    else
      var s := template.value;
      if "file:" <= s then
        var remainder := s[5..];
        if !NoLineTerminator(remainder) then Failure(UnmatchedFileReference)
        else if remainder == "" then Failure(MissingFilePath)
        else Success("file:" + resolvePath(originalDirectory, remainder))
      else if IsDirectTarget(s) then Success(s)
      else
        match ParsePackage(s)
        case None => Failure(UnmatchedPackageReference)
        case Some(t) => Success(Rewrite(t))
  }

  // ---------------------------------------------------------------------
  // Properties of the resolver

  /** `file:` references resolve their remainder against the original directory. */
  lemma FileReferenceResolved(s: string, originalDirectory: string, resolvePath: (string, string) -> string)
    requires "file:" <= s
    ensures ResolveTemplate(Some(s), originalDirectory, resolvePath).Success?
        <==> s[5..] != "" && NoLineTerminator(s[5..])
    ensures ResolveTemplate(Some(s), originalDirectory, resolvePath).Success? ==>
              ResolveTemplate(Some(s), originalDirectory, resolvePath).value
                == "file:" + resolvePath(originalDirectory, s[5..])
  {
  }

  /** URLs and archives that are not `file:` references pass through unchanged. */
  lemma DirectTargetPassesThrough(s: string, originalDirectory: string, resolvePath: (string, string) -> string)
    requires !("file:" <= s) && IsDirectTarget(s)
    ensures ResolveTemplate(Some(s), originalDirectory, resolvePath) == Success(s)
  {
  }

  /** A package-style reference fails exactly when the pattern cannot match it. */
  lemma {:induction false} PackageReferenceFails(s: string, originalDirectory: string, resolvePath: (string, string) -> string)
    requires IsPackageStyle(s)
    ensures ResolveTemplate(Some(s), originalDirectory, resolvePath).Failure?
        <==> forall t :: !Matches(s, t)
  {
    if ParsePackage(s).Some? {
      ParseSound(s);
    } else {
      forall t ensures !Matches(s, t) {
        if Matches(s, t) {
          ParseComplete(s, t);
        }
      }
    }
  }

  /**
   * A name that already is the template base name, or extends it with '-',
   * is reproduced as given and never prefixed a second time.
   */
  lemma {:induction false} PrefixedNamePassesThrough(s: string, originalDirectory: string,
                                                     resolvePath: (string, string) -> string)
    requires IsPackageStyle(s) && ParsePackage(s).Some?
    requires var name := ParsePackage(s).value.name;
             name == TemplateBaseName || TemplateBaseName + "-" <= name
    ensures ResolveTemplate(Some(s), originalDirectory, resolvePath) == Success(s)
  {
    ParseSound(s);
  }

  /**
   * A reference that only the version group can cover becomes that text
   * followed by `/cpuia-template`: `@scope` becomes `@scope/cpuia-template`,
   * and `@a/b@`, which no scope split matches, becomes `@a/b@/cpuia-template`.
   */
  lemma {:induction false} VersionOnlyShorthand(s: string, originalDirectory: string,
                                                resolvePath: (string, string) -> string)
    requires IsPackageStyle(s) && VersionGroup(s)
    requires forall t :: Matches(s, t) ==> t.scope == ""
    ensures ResolveTemplate(Some(s), originalDirectory, resolvePath)
              == Success(s + "/" + TemplateBaseName)
  {
    var t := PackageRef("", "", s);
    assert "" + "" + s == s;
    assert Matches(s, t);
    ParseComplete(s, t);
    ParseSound(s);
    ParseUnscopedIsUnique(s, t);
  }

  /** A bare `@scope` becomes `@scope/cpuia-template`. */
  lemma {:induction false} ScopeOnlyShorthand(scope: string, originalDirectory: string,
                                              resolvePath: (string, string) -> string)
    requires IsPackageStyle(scope) && VersionGroup(scope) && '/' !in scope
    ensures ResolveTemplate(Some(scope), originalDirectory, resolvePath)
              == Success(scope + "/" + TemplateBaseName)
  {
    forall t | Matches(scope, t)
      ensures t.scope == ""
    {
      assert forall c :: c in t.scope ==> c in scope;
    }
    VersionOnlyShorthand(scope, originalDirectory, resolvePath);
  }

  /**
   * Any other name gets the base name prefixed, keeping the scope and the
   * version around it: `custom` becomes `cpuia-template-custom`,
   * `@org/custom@1.0` becomes `@org/cpuia-template-custom@1.0`, and an empty
   * name after a scope too: `@org/@1.0` becomes `@org/cpuia-template-@1.0`.
   */
  lemma {:induction false} ShortNameIsPrefixed(s: string, scope: string, name: string, version: string,
                                               originalDirectory: string,
                                               resolvePath: (string, string) -> string)
    requires s == scope + name + version && IsPackageStyle(s)
    requires ScopeGroup(scope) && NameGroup(name) && VersionGroup(version)
    requires (name != "" || scope != "") && name != TemplateBaseName && !(TemplateBaseName + "-" <= name)
    ensures ResolveTemplate(Some(s), originalDirectory, resolvePath)
              == Success(scope + TemplateBaseName + "-" + name + version)
  {
    var t := PackageRef(scope, name, version);
    assert Matches(s, t);
    if scope != "" {
      ParsePrefersScope(s, t);
    } else {
      assert s == name + version;
      UnscopedParse(name, version);
    }
  }

  /** A reference with neither ':' nor '.' goes to the decision table. */
  lemma PlainNameIsPackageStyle(s: string)
    requires s != "" && ':' !in s && '.' !in s
    ensures IsPackageStyle(s)
  {
    ContainsFirstChar(s, "://");
    assert |s| >= 5 ==> s[4] != ':';
    assert |s| >= 4 ==> s[|s| - 4] != '.';
    assert |s| >= 7 ==> s[|s| - 7] != '.';
  }

  /** `custom` is prefixed to `cpuia-template-custom`. */
  lemma CustomIsPrefixed(s: string, originalDirectory: string, resolvePath: (string, string) -> string)
    requires s == "custom"
    ensures ResolveTemplate(Some(s), originalDirectory, resolvePath) == Success(TemplateBaseName + "-" + s)
  {
    PlainNameIsPackageStyle(s);
    assert s == "" + s + "";
    ShortNameIsPrefixed(s, "", s, "", originalDirectory, resolvePath);
    assert "" + TemplateBaseName + "-" + s + "" == TemplateBaseName + "-" + s;
  }

  /**
   * `cpuia-template-custom`, and any other extension of the base name by a
   * plain suffix, is already prefixed and comes back unchanged.
   */
  lemma PrefixedExtensionUnchanged(suffix: string, originalDirectory: string,
                                   resolvePath: (string, string) -> string)
    requires ':' !in suffix && '.' !in suffix && '@' !in suffix
    ensures var s := TemplateBaseName + "-" + suffix;
            ResolveTemplate(Some(s), originalDirectory, resolvePath) == Success(s)
  {
    var prefix := TemplateBaseName + "-";
    var s := prefix + suffix;
    assert ':' !in prefix && '.' !in prefix && '@' !in prefix;
    assert s[..|prefix|] == prefix;
    assert forall c :: c in s ==> c in prefix || c in suffix;
    PlainNameIsPackageStyle(s);
    assert s == s + "";
    UnscopedParse(s, "");
    PrefixedNamePassesThrough(s, originalDirectory, resolvePath);
  }
}
