/**
  String operations the import-on-demand flow relies on, stated over `seq<char>`:
  prefix/suffix/substring tests (JavaScript's `startsWith`, `endsWith` and
  unanchored regular expressions over literal text), `split`/`join` on one
  separator character, `JSON.stringify` of an array of strings, and the
  "all of these pieces, in this order" matcher used to inspect error messages.
*/
module Text {

  predicate StartsWith(s: string, prefix: string) {
    prefix <= s
  }

  predicate EndsWith(s: string, suffix: string) {
    |suffix| <= |s| && s[|s| - |suffix|..] == suffix
  }

  /** `sub` occurs somewhere in `s` (an unanchored regular expression over literal text). */
  predicate Contains(s: string, sub: string)
    decreases |s|
  {
    sub <= s || (|s| > 0 && Contains(s[1..], sub))
  }

  /** Position of the first character of `stops` at or after `from` (or `|s|` if there is none). */
  function SpanFrom(s: string, stops: set<char>, from: nat): (n: nat)
    requires from <= |s|
    ensures from <= n <= |s|
    ensures forall i :: from <= i < n ==> s[i] !in stops
    ensures n < |s| ==> s[n] in stops
    decreases |s| - from
  {
    if from == |s| || s[from] in stops then from else SpanFrom(s, stops, from + 1)
  }

  /** Length of the longest prefix of `s` that holds no character of `stops`. */
  function Span(s: string, stops: set<char>): (n: nat)
    ensures n <= |s|
    ensures forall i :: 0 <= i < n ==> s[i] !in stops
    ensures n < |s| ==> s[n] in stops
  {
    SpanFrom(s, stops, 0)
  }

  /** Scanning from `from` is scanning the suffix that starts there. */
  lemma SpanFromSuffix(s: string, stops: set<char>, from: nat)
    requires from <= |s|
    ensures SpanFrom(s, stops, from) == from + Span(s[from..], stops)
  {
    var n := SpanFrom(s, stops, from);
    var m := Span(s[from..], stops);
    assert forall i :: 0 <= i < |s| - from ==> s[from..][i] == s[from + i];
  }

  /** A position with no stop before it (from `from`) and a stop (or the end) at it is where the scan stops. */
  lemma SpanFromIs(s: string, stops: set<char>, from: nat, end: nat)
    requires from <= end <= |s|
    requires forall i :: from <= i < end ==> s[i] !in stops
    requires end == |s| || s[end] in stops
    ensures SpanFrom(s, stops, from) == end
  {
  }

  /** The three parts of a concatenation are its slices. */
  lemma SliceThree<T>(a: seq<T>, b: seq<T>, c: seq<T>)
    ensures (a + b + c)[..|a|] == a
    ensures (a + b + c)[|a|..|a| + |b|] == b
    ensures (a + b + c)[|a| + |b|..] == c
  {
  }

  /** A sequence is rebuilt from its slices around two positions. */
  lemma CutTwice<T>(s: seq<T>, i: nat, j: nat)
    requires i < j < |s|
    ensures s == s[..i] + [s[i]] + s[i + 1..j] + [s[j]] + s[j + 1..]
  {
  }

  /** Cutting a sequence around one position. */
  lemma CutAt<T>(s: seq<T>, i: nat)
    requires i < |s|
    ensures s == s[..i] + [s[i]] + s[i + 1..]
  {
  }

  /** Prepending a one-element display to a three-element display gives the four-element display. */
  lemma PrependOne<T>(a: T, rest: seq<T>)
    requires |rest| == 3
    ensures [a] + rest == [a, rest[0], rest[1], rest[2]]
  {
  }

  /** JavaScript's `parts.join(sep)` for a one-character separator. */
  function Join(parts: seq<string>, sep: char): string
    decreases |parts|
  {
    if |parts| == 0 then ""
    else if |parts| == 1 then parts[0]
    else parts[0] + [sep] + Join(parts[1..], sep)
  }

  /**
    JavaScript's `s.split(sep)` for a one-character separator: never empty
    (the empty string splits into one empty part), no part holds the
    separator, and joining the parts back gives `s`.
  */
  function Split(s: string, sep: char): (parts: seq<string>)
    ensures |parts| >= 1
    ensures forall k :: 0 <= k < |parts| ==> sep !in parts[k]
    ensures Join(parts, sep) == s
    decreases |s|
  {
    var n := Span(s, {sep});
    if n == |s| then
      assert sep !in s;
      [s]
    else
      var rest := Split(s[n + 1..], sep);
      assert s == s[..n] + [sep] + s[n + 1..];
      assert ([s[..n]] + rest)[1..] == rest;
      [s[..n]] + rest
  }

  /** The converse round trip: splitting a join of separator-free parts gives the parts back. */
  lemma {:induction false} SplitJoin(parts: seq<string>, sep: char)
    requires |parts| >= 1
    requires forall k :: 0 <= k < |parts| ==> sep !in parts[k]
    ensures Split(Join(parts, sep), sep) == parts
    decreases |parts|
  {
    var p := parts[0];
    if |parts| == 1 {
      assert sep !in p;
    } else {
      var rest := Join(parts[1..], sep);
      var s := p + [sep] + rest;
      assert Join(parts, sep) == s;
      assert forall i :: 0 <= i < |p| ==> s[i] == p[i];
      assert s[|p|] == sep;
      assert s[|p| + 1..] == rest;
      assert s[..|p|] == p;
      SplitJoin(parts[1..], sep);
      assert parts == [p] + parts[1..];
    }
  }

  lemma {:induction false} ContainsAppend(s: string, sub: string, b: string)
    requires Contains(s, sub)
    ensures Contains(s + b, sub)
    decreases |s|
  {
    if !(sub <= s) {
      assert (s + b)[1..] == s[1..] + b;
      ContainsAppend(s[1..], sub, b);
    }
  }

  lemma {:induction false} ContainsPrepend(a: string, s: string, sub: string)
    requires Contains(s, sub)
    ensures Contains(a + s, sub)
    decreases |a|
  {
    if |a| == 0 {
      assert a + s == s;
    } else {
      assert (a + s)[1..] == a[1..] + s;
      ContainsPrepend(a[1..], s, sub);
    }
  }

  /** Whatever surrounds `sub`, it is still found. */
  lemma ContainsInfix(a: string, sub: string, b: string)
    ensures Contains(a + sub + b, sub)
  {
    assert sub <= sub + b;
    ContainsPrepend(a, sub + b, sub);
    assert a + (sub + b) == a + sub + b;
  }

  /** Every part of a join occurs in the joined string. */
  lemma {:induction false} JoinContainsParts(parts: seq<string>, sep: char, k: nat)
    requires k < |parts|
    ensures Contains(Join(parts, sep), parts[k])
    decreases |parts|
  {
    if |parts| == 1 {
      ContainsInfix("", parts[0], "");
      assert "" + parts[0] + "" == parts[0];
    } else if k == 0 {
      ContainsInfix("", parts[0], [sep] + Join(parts[1..], sep));
      assert "" + parts[0] + ([sep] + Join(parts[1..], sep)) == Join(parts, sep);
    } else {
      JoinContainsParts(parts[1..], sep, k - 1);
      ContainsPrepend(parts[0] + [sep], Join(parts[1..], sep), parts[k]);
      assert parts[0] + [sep] + Join(parts[1..], sep) == Join(parts, sep);
    }
  }

  /**
    The pieces occur in `s` one after another, in order, possibly with text
    between them: a regular expression `p0.*p1.*p2` (with `.` matching newlines).
  */
  predicate ContainsInOrder(s: string, pieces: seq<string>)
    decreases |s| + |pieces|
  {
    || |pieces| == 0
    || (pieces[0] <= s && ContainsInOrder(s[|pieces[0]|..], pieces[1..]))
    || (|s| > 0 && ContainsInOrder(s[1..], pieces))
  }

  /** A piece followed (at any distance) by the remaining pieces in order. */
  lemma {:induction false} ContainsInOrderCons(a: string, piece: string, b: string, rest: seq<string>)
    requires ContainsInOrder(b, rest)
    ensures ContainsInOrder(a + piece + b, [piece] + rest)
    decreases |a|
  {
    var s := a + piece + b;
    if |a| == 0 {
      assert s == piece + b;
      assert s[|piece|..] == b;
      assert ([piece] + rest)[1..] == rest;
    } else {
      assert s[1..] == a[1..] + piece + b;
      ContainsInOrderCons(a[1..], piece, b, rest);
    }
  }

  /** Pieces found in a suffix of `s` are found in `s`. */
  lemma {:induction false} ContainsInOrderSuffix(s: string, k: nat, pieces: seq<string>)
    requires k <= |s|
    requires ContainsInOrder(s[k..], pieces)
    ensures ContainsInOrder(s, pieces)
    decreases k
  {
    if k == 0 {
      assert s[k..] == s;
    } else {
      assert s[1..][k - 1..] == s[k..];
      ContainsInOrderSuffix(s[1..], k - 1, pieces);
    }
  }

  /** Dropping the first piece keeps the rest in order. */
  lemma {:induction false} ContainsInOrderTail(s: string, pieces: seq<string>)
    requires |pieces| > 0
    requires ContainsInOrder(s, pieces)
    ensures ContainsInOrder(s, pieces[1..])
    decreases |s|
  {
    if pieces[0] <= s && ContainsInOrder(s[|pieces[0]|..], pieces[1..]) {
      ContainsInOrderSuffix(s, |pieces[0]|, pieces[1..]);
    } else {
      ContainsInOrderTail(s[1..], pieces);
    }
  }

  /** The lower-case hexadecimal digit for `d`. */
  function HexDigit(d: nat): (c: char)
    requires d < 16
    ensures '0' <= c <= '9' || 'a' <= c <= 'f'
  {
    if d < 10 then ('0' as int + d) as char else ('a' as int + d - 10) as char
  }

  /** How `JSON.stringify` writes one character inside a string literal. */
  function EscapeChar(c: char): (e: string)
    ensures |e| >= 1
    ensures e[0] == '\\' <==> (c == '"' || c == '\\' || (c as int) < 0x20)
  {
    if c == '"' then "\\\""
    else if c == '\\' then "\\\\"
    else if c == '\n' then "\\n"
    else if c == '\r' then "\\r"
    else if c == '\t' then "\\t"
    else if c as int == 0x08 then "\\b"
    else if c as int == 0x0C then "\\f"
    else if (c as int) < 0x20 then "\\u00" + [HexDigit(c as int / 16), HexDigit(c as int % 16)]
    else [c]
  }

  function Escape(s: string): string
    decreases |s|
  {
    if |s| == 0 then "" else EscapeChar(s[0]) + Escape(s[1..])
  }

  /** `JSON.stringify(s)` for a string `s`. */
  function JsonString(s: string): string {
    "\"" + Escape(s) + "\""
  }

  function JsonStrings(xs: seq<string>): (ys: seq<string>)
    ensures |ys| == |xs|
    ensures forall k :: 0 <= k < |xs| ==> ys[k] == JsonString(xs[k])
    decreases |xs|
  {
    if |xs| == 0 then [] else [JsonString(xs[0])] + JsonStrings(xs[1..])
  }

  /** `JSON.stringify(xs)` for an array of strings. */
  function JsonStringArray(xs: seq<string>): (r: string)
    ensures StartsWith(r, "[") && EndsWith(r, "]")
    ensures |xs| == 0 ==> r == "[]"
    ensures |xs| == 1 ==> r == "[" + JsonString(xs[0]) + "]"
  {
    "[" + Join(JsonStrings(xs), ',') + "]"
  }

  /** Every element of the array appears, as a JSON string literal, in its `JSON.stringify` text. */
  lemma JsonStringArrayListsElement(xs: seq<string>, k: nat)
    requires k < |xs|
    ensures Contains(JsonStringArray(xs), JsonString(xs[k]))
  {
    var body := Join(JsonStrings(xs), ',');
    JoinContainsParts(JsonStrings(xs), ',', k);
    ContainsAppend(body, JsonString(xs[k]), "]");
    ContainsPrepend("[", body + "]", JsonString(xs[k]));
    assert "[" + (body + "]") == "[" + body + "]";
  }
}
