/**
  Package specifiers `name[@version][/path]` and the version-free import path
  built from them.

  The parser is a reconstruction of the external `parse-package-name` library,
  which matches the input against a scoped pattern
  `^(@[^/]+/[^@/]+)(?:@([^/]+))?(/.*)?$` and then an unscoped one
  `^([^@/]+)(?:@([^/]+))?(/.*)?$` and defaults the version to `latest`.  The
  third group holds the leading `/`; the reconstruction assumes the library
  reports the path without it, the reading under which test/testy.test.ts
  lines 51-65 expect `name/lib/utils.js` (not `name//lib/utils.js`) from the
  `/`-join at src/index.ts line 14.  Both patterns are deterministic (no part
  can give back characters to another), so the parser below scans left to right.
*/
module Specifier {
  import opened Options
  import opened Text

  /** The three fields `parse` returns: `{ name, version, path }`. */
  datatype PackageSpec = PackageSpec(name: string, version: string, path: string)

  /** The version `parse` reports when the specifier names none. */
  const DefaultVersion: string := "latest"

  /** Characters that end a package name (and start its version or path). */
  const NameStops: set<char> := {'@', '/'}

  /**
    Length of the package name at the head of `s`, if `s` starts with one: an
    `@scope/` prefix followed by a name, or a bare name; a name runs up to the
    first `@` or `/`.
  */
  function NameLength(s: string): (r: Option<nat>)
    ensures r.Some? ==> 0 < r.value <= |s|
    ensures r.Some? && r.value < |s| ==> s[r.value] in NameStops
  {
    if |s| > 0 && s[0] == '@' then
      var slash := SpanFrom(s, {'/'}, 1);               // the `/` closing the scope
      if slash == 1 || slash == |s| then None
      else
        var end := SpanFrom(s, {'@', '/'}, slash + 1);
        if end == slash + 1 then None else Some(end)
    else
      var end := SpanFrom(s, {'@', '/'}, 0);
      if end == 0 then None else Some(end)
  }

  /** A package name as `parse` accepts it: the name scanner consumes it entirely. */
  predicate ValidName(n: string) {
    NameLength(n) == Some(|n|)
  }

  /** A version or tag: any non-empty text without `/`. */
  predicate ValidVersion(v: string) {
    |v| > 0 && '/' !in v
  }

  /** `s` holds none of the line terminators JavaScript's `.` does not match. */
  predicate LineFree(s: string) {
    '\n' !in s && '\r' !in s && '\U{2028}' !in s && '\U{2029}' !in s
  }

  /** The specifiers `parse` can return. */
  predicate WellFormed(p: PackageSpec) {
    ValidName(p.name) && ValidVersion(p.version) && LineFree(p.path)
  }

  function WithPath(name: string, version: string, path: string): Option<PackageSpec> {
    if LineFree(path) then Some(PackageSpec(name, version, path)) else None
  }

  /**
    `parse(pkg)`: `None` where the library throws.  A result is always well
    formed and its name is the head of the input.
  */
  function Parse(s: string): (r: Option<PackageSpec>)
    ensures r.Some? ==> WellFormed(r.value)
    ensures r.Some? ==> StartsWith(s, r.value.name)
  {
    match NameLength(s)
    case None => None
    case Some(n) =>
      NameLengthPrefix(s);
      var name := s[..n];
      if n == |s| then Some(PackageSpec(name, DefaultVersion, ""))
      else if s[n] == '/' then WithPath(name, DefaultVersion, s[n + 1..])
      else
        var end := SpanFrom(s, {'/'}, n + 1);           // the version runs up to the next `/`
        if end == n + 1 then None
        else
          var version := s[n + 1..end];
          assert forall k :: 0 <= k < |version| ==> version[k] == s[n + 1 + k];
          if end == |s| then Some(PackageSpec(name, version, ""))
          else WithPath(name, version, s[end + 1..])
  }

  /** The canonical specifier text `name@version[/path]`. */
  function Format(p: PackageSpec): string {
    p.name + "@" + p.version + (if p.path == "" then "" else "/" + p.path)
  }

  /**
    The path handed to the native loader and to the relative loader
    (src/index.ts line 14): the name, joined with the path when there is one.
  */
  function ImportPath(p: PackageSpec): (r: string)
    ensures StartsWith(r, p.name)
    ensures p.path == "" ==> r == p.name
    ensures p.path != "" ==> r == p.name + "/" + p.path
  {
    if |p.path| > 0 then
      assert Join([p.name, p.path], '/') == p.name + ['/'] + Join([p.path], '/');
      Join([p.name, p.path], '/')
    else p.name
  }

  // ---------------------------------------------------------------------------
  // Scanning facts

  /** Cutting a string after its longest stop-free prefix leaves that prefix intact. */
  lemma SpanTake(t: string, stops: set<char>, m: nat)
    requires Span(t, stops) <= m <= |t|
    ensures Span(t[..m], stops) == Span(t, stops)
  {
    var n := Span(t, stops);
    var n' := Span(t[..m], stops);
    assert forall i :: 0 <= i < m ==> t[..m][i] == t[i];
  }

  /** Appending text that starts with a stop (or nothing) does not lengthen a scan that reached the end. */
  lemma SpanAppend(a: string, b: string, stops: set<char>)
    requires Span(a, stops) < |a| || |b| == 0 || b[0] in stops
    ensures Span(a + b, stops) == Span(a, stops)
  {
    var m := Span(a, stops);
    var n := Span(a + b, stops);
    assert forall i :: 0 <= i < |a| ==> (a + b)[i] == a[i];
    assert |b| > 0 ==> (a + b)[|a|] == b[0];
  }

  /** Scanning a prefix of `t` that still holds the scan's stopping point gives the same answer. */
  lemma SpanFromTake(t: string, stops: set<char>, from: nat, m: nat)
    requires from <= m <= |t|
    requires SpanFrom(t, stops, from) <= m
    ensures SpanFrom(t[..m], stops, from) == SpanFrom(t, stops, from)
  {
    SpanFromSuffix(t, stops, from);
    SpanFromSuffix(t[..m], stops, from);
    assert t[..m][from..] == t[from..][..m - from];
    SpanTake(t[from..], stops, m - from);
  }

  /** Appending text that starts with a stop (or nothing) does not move a scan that reached the end. */
  lemma SpanFromAppend(a: string, b: string, stops: set<char>, from: nat)
    requires from <= |a|
    requires SpanFrom(a, stops, from) < |a| || |b| == 0 || b[0] in stops
    ensures SpanFrom(a + b, stops, from) == SpanFrom(a, stops, from)
  {
    SpanFromSuffix(a, stops, from);
    SpanFromSuffix(a + b, stops, from);
    assert (a + b)[from..] == a[from..] + b;
    SpanAppend(a[from..], b, stops);
  }

  /** The name a scan finds is itself a valid name. */
  lemma NameLengthPrefix(s: string)
    requires NameLength(s).Some?
    ensures ValidName(s[..NameLength(s).value])
  {
    var n := NameLength(s).value;
    if s[0] == '@' {
      var slash := SpanFrom(s, {'/'}, 1);
      SpanFromTake(s, {'/'}, 1, n);
      SpanFromTake(s, {'@', '/'}, slash + 1, n);
    } else {
      SpanFromTake(s, {'@', '/'}, 0, n);
    }
  }

  /** A valid name followed by a version or path marker (or nothing) is found again by the scan. */
  lemma NameLengthAppend(name: string, rest: string)
    requires ValidName(name)
    requires |rest| == 0 || rest[0] in NameStops
    ensures NameLength(name + rest) == Some(|name|)
  {
    var s := name + rest;
    assert s[0] == name[0];
    if name[0] == '@' {
      var slash := SpanFrom(name, {'/'}, 1);
      SpanFromAppend(name, rest, {'/'}, 1);
      SpanFromAppend(name, rest, {'@', '/'}, slash + 1);
    } else {
      SpanFromAppend(name, rest, {'@', '/'}, 0);
    }
  }

  /** An unscoped name: non-empty, with no `@` and no `/`. */
  lemma BareNameValid(n: string)
    requires |n| > 0 && '@' !in n && '/' !in n
    ensures ValidName(n)
  {
    assert n[0] != '@';
    assert SpanFrom(n, {'@', '/'}, 0) == |n|;
  }

  /** A scoped name `@scope/bare`: a non-empty scope without `/`, and a non-empty bare name. */
  lemma ScopedNameValid(scope: string, bare: string)
    requires |scope| > 0 && '/' !in scope
    requires |bare| > 0 && '@' !in bare && '/' !in bare
    ensures ValidName("@" + scope + "/" + bare)
  {
    var n := "@" + scope + "/" + bare;
    SpanFromSuffix(n, {'/'}, 1);
    assert n[1..] == scope + ("/" + bare);
    assert Span(scope, {'/'}) == |scope|;
    SpanAppend(scope, "/" + bare, {'/'});
    SpanFromSuffix(n, {'@', '/'}, |scope| + 2);
    assert n[|scope| + 2..] == bare;
    assert Span(bare, {'@', '/'}) == |bare|;
  }

  // ---------------------------------------------------------------------------
  // Properties

  /** How `Parse` reads a name followed by `@version`. */
  lemma ParseVersioned(s: string, n: nat, end: nat)
    requires NameLength(s) == Some(n) && n < |s| && s[n] == '@'
    requires SpanFrom(s, {'/'}, n + 1) == end && end > n + 1
    ensures end == |s| ==> Parse(s) == Some(PackageSpec(s[..n], s[n + 1..end], ""))
    ensures end < |s| ==> Parse(s) == WithPath(s[..n], s[n + 1..end], s[end + 1..])
  {
    assert n != |s| && s[n] != '/';
    if end == |s| {
      assert Parse(s) == Some(PackageSpec(s[..n], s[n + 1..end], ""));
    } else {
      assert Parse(s) == WithPath(s[..n], s[n + 1..end], s[end + 1..]);
    }
  }

  /** The canonical text starts with the name, which the scan finds, followed by `@`. */
  lemma FormatName(p: PackageSpec)
    requires WellFormed(p)
    ensures NameLength(Format(p)) == Some(|p.name|)
    ensures |p.name| < |Format(p)| && Format(p)[|p.name|] == '@'
    ensures Format(p)[..|p.name|] == p.name
  {
    var tail := if p.path == "" then "" else "/" + p.path;
    var rest := "@" + p.version + tail;
    assert Format(p) == p.name + rest;
    NameLengthAppend(p.name, rest);
  }

  /** After the `@`, the canonical text holds the version up to the first `/`, then the path if there is one. */
  lemma FormatVersion(p: PackageSpec)
    requires WellFormed(p)
    ensures var n, end := |p.name|, |p.name| + 1 + |p.version|;
            SpanFrom(Format(p), {'/'}, n + 1) == end && end <= |Format(p)| && Format(p)[n + 1..end] == p.version &&
            (p.path == "" ==> end == |Format(p)|) &&
            (p.path != "" ==> end < |Format(p)| && Format(p)[end + 1..] == p.path)
  {
    var tail := if p.path == "" then "" else "/" + p.path;
    VersionThenTail(p.name + "@", p.version, tail);
  }

  /** Scanning for `/` from the start of a slash-free version stops where the version ends. */
  lemma VersionThenTail(head: string, version: string, tail: string)
    requires ValidVersion(version) && (|tail| == 0 || tail[0] == '/')
    ensures var s, end := head + version + tail, |head| + |version|;
            SpanFrom(s, {'/'}, |head|) == end && s[|head|..end] == version && s[end..] == tail
  {
    var s, end := head + version + tail, |head| + |version|;
    SliceThree(head, version, tail);
    assert forall i :: |head| <= i < end ==> s[i] == version[i - |head|];
    assert end < |s| ==> s[end] == tail[0];
    SpanFromIs(s, {'/'}, |head|, end);
  }

  /** Round trip: the canonical text of a well-formed specifier parses back to it. */
  lemma ParseFormat(p: PackageSpec)
    requires WellFormed(p)
    ensures Parse(Format(p)) == Some(p)
  {
    var s, n, end := Format(p), |p.name|, |p.name| + 1 + |p.version|;
    FormatName(p);
    FormatVersion(p);
    ParseVersioned(s, n, end);
    if p.path == "" {
      assert Parse(s) == Some(PackageSpec(p.name, p.version, ""));
    } else {
      assert Parse(s) == WithPath(p.name, p.version, p.path);
    }
  }

  /**
    The import path carries no version: parsing it gives back the name and
    path of the specifier, with the default version in place of whatever
    version or tag the specifier had.
  */
  lemma ParseImportPath(p: PackageSpec)
    requires WellFormed(p)
    ensures Parse(ImportPath(p)) == Some(p.(version := DefaultVersion))
  {
    var s := ImportPath(p);
    var n := |p.name|;
    if |p.path| > 0 {
      var rest := "/" + p.path;
      assert Join([p.name, p.path], '/') == p.name + ['/'] + Join([p.path], '/');
      assert s == p.name + rest;
      NameLengthAppend(p.name, rest);
      assert s[..n] == p.name;
      assert s[n + 1..] == p.path;
    } else {
      NameLengthAppend(p.name, "");
      assert s == p.name + "";
      assert s[..n] == p.name;
    }
  }

  /** How `Parse` reads a name followed by `/`. */
  lemma ParseWithPath(s: string, n: nat)
    requires NameLength(s) == Some(n) && n < |s| && s[n] == '/'
    ensures Parse(s) == WithPath(s[..n], DefaultVersion, s[n + 1..])
  {
  }

  /**
    The converse of `ParseFormat`: every text `parse` accepts is the name,
    optionally followed by `@version`, optionally followed by `/path`.  A
    bare `/` after the name or version is accepted with an empty path, so
    such a text is not the canonical `Format` of its result.
  */
  lemma ParseShape(s: string)
    requires Parse(s).Some?
    ensures var p := Parse(s).value;
            || (s == p.name && p.version == DefaultVersion && p.path == "")
            || (s == p.name + "/" + p.path && p.version == DefaultVersion)
            || (s == p.name + "@" + p.version && p.path == "")
            || s == p.name + "@" + p.version + "/" + p.path
  {
    var n := NameLength(s).value;
    if n == |s| {
      assert s[..n] == s;
    } else if s[n] == '/' {
      ShapeWithPath(s, n);
    } else {
      ShapeWithVersion(s, n);
    }
  }

  /** An accepted text whose name is followed by `/` is `name/path`. */
  lemma ShapeWithPath(s: string, n: nat)
    requires NameLength(s) == Some(n) && n < |s| && s[n] == '/' && Parse(s).Some?
    ensures Parse(s).value.version == DefaultVersion
    ensures s == Parse(s).value.name + "/" + Parse(s).value.path
  {
    ParseWithPath(s, n);
    CutAt(s, n);
  }

  /** An accepted text whose name is followed by `@` is `name@version`, possibly followed by `/path`. */
  lemma ShapeWithVersion(s: string, n: nat)
    requires NameLength(s) == Some(n) && n < |s| && s[n] == '@' && Parse(s).Some?
    ensures var p := Parse(s).value;
            || (s == p.name + "@" + p.version && p.path == "")
            || s == p.name + "@" + p.version + "/" + p.path
  {
    var end := SpanFrom(s, {'/'}, n + 1);
    ParseVersioned(s, n, end);
    if end < |s| {
      CutTwice(s, n, end);
      assert [s[n]] == "@" && [s[end]] == "/";
    } else {
      CutAt(s, n);
      assert [s[n]] == "@";
    }
  }

  /** A valid name followed by a lone `/` is accepted, with the default version and an empty path. */
  lemma ParseTrailingSlash(name: string)
    requires ValidName(name)
    ensures Parse(name + "/") == Some(PackageSpec(name, DefaultVersion, ""))
  {
    NameLengthAppend(name, "/");
    assert (name + "/")[..|name|] == name;
    assert (name + "/")[|name| + 1..] == "";
  }

  /** A `name@version` followed by a lone `/` is accepted, with that version and an empty path. */
  lemma ParseVersionTrailingSlash(name: string, version: string)
    requires ValidName(name) && ValidVersion(version)
    ensures Parse(name + "@" + version + "/") == Some(PackageSpec(name, version, ""))
  {
    var s := name + "@" + version + "/";
    NameLengthAppend(name, "@" + version + "/");
    assert s == name + ("@" + version + "/");
    assert s[..|name|] == name;
    VersionThenTail(name + "@", version, "/");
    var end := |name| + 1 + |version|;
    ParseVersioned(s, |name|, end);
    assert s[end + 1..] == "";
  }
}
