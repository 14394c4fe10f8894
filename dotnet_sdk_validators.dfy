/**
 The SDK-version gate of the hosting tool: a validation callback that lets a
 command run only when the dotnet SDK found for a project directory has major
 version 10 or later.

 Everything the callback reaches outside itself is a parameter here:
 - `tryGetVersion` is the SDK version lookup for a directory (it may find none);
 - `cwd` is the process's current working directory;
 - `show` is how a version is rendered in text.
 */
module DotnetSdkValidators {

  datatype Option<+T> = None | Some(value: T)

  /** An SDK version; only `major` takes part in the decision. */
  datatype Version = Version(major: nat, minor: nat, patch: nat)

  /** The outcome handed back to the command-validation framework. */
  datatype ValidationResult = Success | Failure(message: string)

  /** The lowest SDK major version that is accepted. */
  const MINIMUM_MAJOR: nat := 10

  /** Fixed pieces of the failure message. */
  const REQUIRED := "Dotnet SDK 10 or later is required"
  const DETECTED := ". Detected version: "
  const IN_OPEN := " in '"
  const IN_CLOSE := "'"

  predicate EndsWith(s: string, suffix: string) {
    |suffix| <= |s| && s[|s| - |suffix|..] == suffix
  }

  /** The clause naming the directory, or nothing when no directory was given. */
  function DirectoryClause(projectDirectory: Option<string>): (c: string)
    ensures c == "" <==> projectDirectory.None?
    ensures projectDirectory.Some? ==> |c| == |IN_OPEN| + |projectDirectory.value| + |IN_CLOSE|
    ensures projectDirectory.Some? ==> IN_OPEN <= c && c[|IN_OPEN|..|c| - |IN_CLOSE|] == projectDirectory.value
    ensures projectDirectory.Some? ==> EndsWith(c, IN_CLOSE)
  {
    match projectDirectory
    case None => ""
    case Some(d) => IN_OPEN + d + IN_CLOSE
  }

  /** The directory whose SDK is looked up: the project directory when one was
      given, otherwise the current working directory. */
  function ResolveDir(projectDirectory: Option<string>, cwd: string): (dir: string)
    ensures projectDirectory.Some? ==> dir == projectDirectory.value
    ensures projectDirectory.None? ==> dir == cwd
  {
    if projectDirectory.Some? then projectDirectory.value else cwd
  }

  /** The message reported when the detected SDK is too old. */
  function FailureMessage(projectDirectory: Option<string>, versionText: string): (m: string)
    ensures REQUIRED <= m
    ensures EndsWith(m, DETECTED + versionText + ".")
    ensures |m| == |REQUIRED| + |DirectoryClause(projectDirectory)| + |DETECTED| + |versionText| + 1
    ensures m[|REQUIRED|..|REQUIRED| + |DirectoryClause(projectDirectory)|] == DirectoryClause(projectDirectory)
  {
    REQUIRED + DirectoryClause(projectDirectory) + DETECTED + versionText + "."
  }

  /** The decision once the version lookup has answered: an unknown version is
      let through (the runtime reports the real problem later), a major version
      below 10 fails with the message, anything else succeeds. */
  function Decide(version: Option<Version>, projectDirectory: Option<string>, show: Version -> string): (r: ValidationResult)
    ensures version.None? ==> r == Success
    ensures r.Success? <==> (version.None? || version.value.major >= MINIMUM_MAJOR)
    ensures r.Failure? ==> version.Some? && r.message == FailureMessage(projectDirectory, show(version.value))
  {
    match version
    case None => Success
    case Some(v) =>
      if v.major < MINIMUM_MAJOR then Failure(FailureMessage(projectDirectory, show(v)))
      else Success
  }

  /** One invocation of the callback built for `projectDirectory`. The context
      the framework passes in is never inspected. */
  function Dotnet10ValidationCallback<C>(
    projectDirectory: Option<string>, cwd: string,
    tryGetVersion: string -> Option<Version>, show: Version -> string,
    context: C): (r: ValidationResult)
    ensures var found := tryGetVersion(ResolveDir(projectDirectory, cwd));
      && (r.Success? <==> (found.None? || found.value.major >= MINIMUM_MAJOR))
      && (r.Failure? ==> found.Some? && r.message == FailureMessage(projectDirectory, show(found.value)))
  {
    var dir := ResolveDir(projectDirectory, cwd);
    var version := tryGetVersion(dir);
    Decide(version, projectDirectory, show)
  }

  // ---------------------------------------------------------------------------
  // Properties of the decision

  /** The threshold sits exactly at 10: major 9 fails and major 10 passes. */
  lemma ThresholdBoundary(minor: nat, patch: nat, projectDirectory: Option<string>, show: Version -> string)
    ensures Decide(Some(Version(9, minor, patch)), projectDirectory, show).Failure?
    ensures Decide(Some(Version(10, minor, patch)), projectDirectory, show) == Success
  {
  }

  /** Passing is upward closed in the major version: a newer major never fails
      where an older one passed. */
  lemma AcceptanceMonotone(v: Version, w: Version, projectDirectory: Option<string>, show: Version -> string)
    requires v.major <= w.major
    requires Decide(Some(v), projectDirectory, show) == Success
    ensures Decide(Some(w), projectDirectory, show) == Success
  {
  }

  /** For the same lookup and working directory, the context argument has no
      influence on the result. */
  lemma CallbackIgnoresContext<C>(
    projectDirectory: Option<string>, cwd: string,
    tryGetVersion: string -> Option<Version>, show: Version -> string,
    c1: C, c2: C)
    ensures Dotnet10ValidationCallback(projectDirectory, cwd, tryGetVersion, show, c1)
         == Dotnet10ValidationCallback(projectDirectory, cwd, tryGetVersion, show, c2)
  {
  }

  /** The version lookup is consulted only for the resolved directory: two
      lookups that agree there give the same result. */
  lemma CallbackLooksUpResolvedDir<C>(
    projectDirectory: Option<string>, cwd: string,
    lookup1: string -> Option<Version>, lookup2: string -> Option<Version>,
    show: Version -> string, context: C)
    requires lookup1(ResolveDir(projectDirectory, cwd)) == lookup2(ResolveDir(projectDirectory, cwd))
    ensures Dotnet10ValidationCallback(projectDirectory, cwd, lookup1, show, context)
         == Dotnet10ValidationCallback(projectDirectory, cwd, lookup2, show, context)
  {
  }

  /** With a project directory given, the callback does not read the current
      working directory (the `??` choice short-circuits): the lookup receives the
      directory as given. */
  lemma CallbackIgnoresCwdWhenDirectoryGiven<C>(
    d: string, cwd1: string, cwd2: string,
    tryGetVersion: string -> Option<Version>, show: Version -> string, context: C)
    ensures Dotnet10ValidationCallback(Some(d), cwd1, tryGetVersion, show, context)
         == Dotnet10ValidationCallback(Some(d), cwd2, tryGetVersion, show, context)
  {
  }

  // ---------------------------------------------------------------------------
  // Properties of the failure message

  /** Without a project directory the message has no directory clause. */
  lemma MessageWithoutDirectory(versionText: string)
    ensures FailureMessage(None, versionText)
         == "Dotnet SDK 10 or later is required. Detected version: " + versionText + "."
  {
  }

  /** With a project directory d the message reads "... required in 'd'. ...". */
  lemma MessageWithDirectory(d: string, versionText: string)
    ensures var m := FailureMessage(Some(d), versionText);
      m[..|REQUIRED| + |IN_OPEN| + |d| + |IN_CLOSE|] == "Dotnet SDK 10 or later is required in '" + d + "'"
  {
  }

  /** The message tells whether a directory was given: a message with the
      directory clause never equals one without it. */
  lemma DirectoryClauseVisible(d: string, text1: string, text2: string)
    ensures FailureMessage(Some(d), text1) != FailureMessage(None, text2)
  {
    var m1, m2 := FailureMessage(Some(d), text1), FailureMessage(None, text2);
    assert m1[|REQUIRED|] == ' ';
    assert m2[|REQUIRED|] == '.';
  }

  /** For a fixed directory choice, the message determines the detected version text. */
  lemma MessageDeterminesVersionText(projectDirectory: Option<string>, text1: string, text2: string)
    requires FailureMessage(projectDirectory, text1) == FailureMessage(projectDirectory, text2)
    ensures text1 == text2
  {
    var m := FailureMessage(projectDirectory, text1);
    var start := |REQUIRED| + |DirectoryClause(projectDirectory)| + |DETECTED|;
    assert |text1| == |text2|;
    assert m[start..|m| - 1] == text1;
    assert FailureMessage(projectDirectory, text2)[start..|m| - 1] == text2;
  }

  /** For a fixed version text, the message determines the project directory. */
  lemma MessageDeterminesDirectory(d1: string, d2: string, versionText: string)
    requires FailureMessage(Some(d1), versionText) == FailureMessage(Some(d2), versionText)
    ensures d1 == d2
  {
    var m := FailureMessage(Some(d1), versionText);
    var start := |REQUIRED| + |IN_OPEN|;
    assert |d1| == |d2|;
    assert m[start..start + |d1|] == d1;
    assert FailureMessage(Some(d2), versionText)[start..start + |d2|] == d2;
  }

  /** Moving a piece across the clause boundary: the regrouping that makes two
      different messages coincide, stated over arbitrary strings. */
  lemma RegroupAcrossClause(req: string, opening: string, closing: string, det: string, a: string, x: string, y: string)
    ensures req + (opening + (a + closing + det + x) + closing) + det + y + "."
         == req + (opening + a + closing) + det + (x + closing + det + y) + "."
  {
    var left := req + (opening + (a + closing + det + x) + closing) + det + y + ".";
    var right := req + (opening + a + closing) + det + (x + closing + det + y) + ".";
    var whole := req + opening + a + closing + det + x + closing + det + y + ".";
    assert left == whole;
    assert right == whole;
  }

  /** The two lemmas above each fix one argument; together the arguments are not
      recoverable: a directory that itself contains "'. Detected version: " lets
      two different (directory, version text) pairs give the same message. */
  lemma MessageAmbiguousInBothArguments(a: string, x: string, y: string)
    ensures var d1, t1 := a + IN_CLOSE + DETECTED + x, y;
      var d2, t2 := a, x + IN_CLOSE + DETECTED + y;
      && d1 != d2
      && FailureMessage(Some(d1), t1) == FailureMessage(Some(d2), t2)
  {
    var d1, t1 := a + IN_CLOSE + DETECTED + x, y;
    var d2, t2 := a, x + IN_CLOSE + DETECTED + y;
    assert |d1| > |d2|;
    RegroupAcrossClause(REQUIRED, IN_OPEN, IN_CLOSE, DETECTED, a, x, y);
  }
}
