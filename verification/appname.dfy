/**
 * The dependency-name half of `checkAppName`: a project may not be named
 * after any package it is about to install, because npm refuses to install
 * a package into a project of the same name.
 */
module AppName {
  import opened Wrappers

  const ProductionDependencies: seq<string> := [
    "react", "react-dom", "@babel/polyfill", "@material-ui/core", "axios",
    "classnames", "copyfile", "cross-env", "fs", "moment", "notistack",
    "prop-types", "qs", "react", "react-dom", "react-redux", "react-router",
    "react-router-dom", "react-transition-group", "redux", "redux-logger",
    "redux-promise-middleware", "redux-thunk", "showdown", "webpack",
    "webpack-cli", "webpack-dev-server", "webpack-merge"
  ]

  const DevelopmentDependencies: seq<string> := [
    "@babel/cli", "@babel/core", "@babel/plugin-proposal-class-properties",
    "@babel/plugin-proposal-export-default-from", "@babel/plugin-transform-classes",
    "@babel/plugin-transform-object-set-prototype-of-to-assign", "@babel/preset-env",
    "@babel/preset-react", "@babel/runtime", "babel-eslint", "babel-loader", "braces",
    "css-loader", "deep-equal", "eslint", "eslint-config-airbnb", "eslint-plugin-import",
    "eslint-plugin-jsx-a11y", "eslint-plugin-react", "file-loader", "fs-plus",
    "ftp-deploy", "history", "immutability-helper", "jasmine", "karma",
    "karma-chrome-launcher", "karma-jasmine", "karma-junit-reporter",
    "karma-sourcemap-loader", "karma-webpack", "puppeteer", "renamer",
    "replace-in-file", "rimraf", "style-loader", "stylelint",
    "stylelint-config-standard", "url-loader", "yargs"
  ]

  /** The order of the default `Array.prototype.sort`, character by character. */
  predicate LexLessEq(a: string, b: string) {
    if a == [] then true
    else if b == [] then false
    else if a[0] != b[0] then a[0] < b[0]
    else LexLessEq(a[1..], b[1..])
  }

  lemma {:induction false} LexTotal(a: string, b: string)
    ensures LexLessEq(a, b) || LexLessEq(b, a)
  {
    if a != [] && b != [] && a[0] == b[0] {
      LexTotal(a[1..], b[1..]);
    }
  }

  predicate Sorted(s: seq<string>) {
    forall i :: 0 < i < |s| ==> LexLessEq(s[i - 1], s[i])
  }

  function Insert(x: string, s: seq<string>): (r: seq<string>)
    requires Sorted(s)
    ensures Sorted(r)
    ensures multiset(r) == multiset(s) + multiset{x}
    ensures r != [] && (r[0] == x || (s != [] && r[0] == s[0]))
  {
    if s == [] then [x]
    else if LexLessEq(x, s[0]) then [x] + s
    else
      LexTotal(x, s[0]);
      var rest := Insert(x, s[1..]);
      assert s == [s[0]] + s[1..];
      [s[0]] + rest
  }

  /** `.sort()` with no comparator. */
  function Sort(s: seq<string>): (r: seq<string>)
    ensures Sorted(r)
    ensures multiset(r) == multiset(s)
  {
    if s == [] then []
    else
      assert s == [s[0]] + s[1..];
      Insert(s[0], Sort(s[1..]))
  }

  /** `.sort()` keeps exactly the names it was given. */
  lemma SortKeepsNames(s: seq<string>)
    ensures forall x :: x in Sort(s) <==> x in s
  {
    forall x ensures x in Sort(s) <==> x in s {
      assert x in Sort(s) <==> x in multiset(Sort(s));
      assert x in s <==> x in multiset(s);
    }
  }

  /** `productionDependencies.concat(developmentDependencies).sort()` */
  function ReservedNames(production: seq<string>, development: seq<string>): (reserved: seq<string>)
    ensures Sorted(reserved)
    ensures forall x :: x in reserved <==> x in production || x in development
  {
    SortKeepsNames(production + development);
    Sort(production + development)
  }

  datatype NameError =
    | InvalidPackageName                          // rejected by the npm naming rules
    | DependencyCollision(reserved: seq<string>)  // the sorted list the message prints

  /**
   * `checkAppName`. The npm naming rules belong to a foreign library and come
   * in as `validForNewPackages`; an invalid name is reported before the
   * dependency names are consulted. The two lists are parameters so that
   * the names below stay symbolic; the source calls it with
   * ProductionDependencies and DevelopmentDependencies.
   */
  function CheckAppName(appName: string, validForNewPackages: bool,
                        production: seq<string>, development: seq<string>): (r: Result<(), NameError>)
    ensures r.Success? <==> validForNewPackages && appName !in production && appName !in development
    ensures r == Failure(InvalidPackageName) <==> !validForNewPackages
    ensures r.Failure? && r.error.DependencyCollision? ==> Sorted(r.error.reserved)
    ensures r.Failure? && r.error.DependencyCollision? ==> r.error.reserved == ReservedNames(production, development)
  {
    var reserved := ReservedNames(production, development);
    if !validForNewPackages then Failure(InvalidPackageName)
    else if appName in reserved then Failure(DependencyCollision(reserved))
    else Success(())
  }

  /** `react` is taken by a runtime dependency. */
  lemma ReactIsReserved(validForNewPackages: bool)
    requires validForNewPackages
    ensures CheckAppName("react", validForNewPackages, ProductionDependencies, DevelopmentDependencies)
              .Failure?
  {
    assert ProductionDependencies[0] == "react";
  }
}
