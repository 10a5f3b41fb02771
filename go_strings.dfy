/** The pieces of Go's `strings` and `path/filepath` packages that the
    command-line front end relies on, written out for the inputs it gives
    them: a one-character separator for `Split`, `Join` and `TrimSuffix`,
    the literal two-character escape for `Replace`, and two slash-free
    elements for `filepath.Join` (Unix separator). */
module GoStrings {

  /** Number of positions of `s` holding `c`. */
  function Count(s: string, c: char): nat
  {
    if s == [] then 0 else (if s[0] == c then 1 else 0) + Count(s[1..], c)
  }

  /** `strings.Join(parts, string(sep))`. */
  function Join(parts: seq<string>, sep: char): string
  {
    if parts == [] then ""
    else if |parts| == 1 then parts[0]
    else parts[0] + [sep] + Join(parts[1..], sep)
  }

  /** `strings.Split(s, string(sep))`: the maximal sep-free pieces of `s`,
      one more than there are separators (so "" splits into [""]). */
  function Split(s: string, sep: char): (parts: seq<string>)
    ensures |parts| == Count(s, sep) + 1
    ensures forall i :: 0 <= i < |parts| ==> sep !in parts[i]
    ensures Join(parts, sep) == s
    decreases |s|
  {
    if s == [] then [""]
    else
      var tail := Split(s[1..], sep);
      if s[0] == sep then
        assert ([""] + tail)[1..] == tail;
        assert s == [s[0]] + s[1..];
        [""] + tail
      else
        var head := [s[0]] + tail[0];
        assert ([head] + tail[1..])[1..] == tail[1..];
        assert s == [s[0]] + s[1..];
        assert |tail| > 1 ==> Join(tail, sep) == tail[0] + [sep] + Join(tail[1..], sep);
        [head] + tail[1..]
  }

  /** `strings.TrimSuffix(s, string(c))`: drops one trailing `c`, if any. */
  function TrimSuffix(s: string, c: char): (r: string)
    ensures |s| > 0 && s[|s| - 1] == c ==> s == r + [c]
    ensures !(|s| > 0 && s[|s| - 1] == c) ==> r == s
  {
    if |s| > 0 && s[|s| - 1] == c then s[..|s| - 1] else s
  }

  lemma {:induction false} JoinAppend(p: seq<string>, q: seq<string>, sep: char)
    requires p != [] && q != []
    ensures Join(p + q, sep) == Join(p, sep) + [sep] + Join(q, sep)
    decreases |p|
  {
    if |p| == 1 {
      assert (p + q)[1..] == q;
    } else {
      assert (p + q)[1..] == p[1..] + q;
      JoinAppend(p[1..], q, sep);
    }
  }

  /** Splitting a sep-free string yields that one string. */
  lemma SplitPlain(s: string, sep: char)
    requires sep !in s
    ensures Split(s, sep) == [s]
  {
  }

  /** Splitting a sep-free piece followed by `sep` peels off that piece. */
  lemma {:induction false} SplitCons(p: string, rest: string, sep: char)
    requires sep !in p
    ensures Split(p + [sep] + rest, sep) == [p] + Split(rest, sep)
    decreases |p|
  {
    var s := p + [sep] + rest;
    if p == [] {
      assert s[1..] == rest;
    } else {
      assert s[1..] == p[1..] + [sep] + rest;
      SplitCons(p[1..], rest, sep);
      assert p == [p[0]] + p[1..];
    }
  }

  /** `Split` inverts `Join` on sep-free pieces, so the three properties
      stated on `Split` determine it. */
  lemma {:induction false} SplitJoin(parts: seq<string>, sep: char)
    requires parts != []
    requires forall i :: 0 <= i < |parts| ==> sep !in parts[i]
    ensures Split(Join(parts, sep), sep) == parts
    decreases |parts|
  {
    if |parts| == 1 {
      SplitPlain(parts[0], sep);
    } else {
      SplitJoin(parts[1..], sep);
      SplitCons(parts[0], Join(parts[1..], sep), sep);
      assert parts == [parts[0]] + parts[1..];
    }
  }

  // ---------------------------------------------------------------------
  // strings.Replace(s, `\n`, "\n", -1)

  /** The two-character escape `\n` (a backslash followed by the letter n)
      starts at position `i` of `s`. */
  predicate EscapeAt(s: string, i: int)
  {
    0 <= i < |s| - 1 && s[i] == '\\' && s[i + 1] == 'n'
  }

  predicate HasEscapedNewline(s: string)
  {
    exists i :: 0 <= i < |s| && EscapeAt(s, i)
  }

  /** Positions at which the escape starts, scanning every position. */
  function CountEscapes(s: string): nat
  {
    if |s| < 2 then 0 else (if EscapeAt(s, 0) then 1 else 0) + CountEscapes(s[1..])
  }

  /** `strings.Replace(s, `\n`, "\n", -1)`: every escape, scanned left to
      right without overlap, becomes a real line break. The result holds no
      escape, is one character shorter per escape, and starts with 'n'
      exactly when the input does. */
  function UnescapeNewlines(s: string): (r: string)
    ensures |r| + CountEscapes(s) == |s|
    ensures !HasEscapedNewline(r)
    ensures |s| > 0 ==> |r| > 0 && (r[0] == 'n' <==> s[0] == 'n')
    decreases |s|
  {
    if |s| < 2 then
      assert forall i :: !EscapeAt(s, i);
      s
    else if EscapeAt(s, 0) then
      var rest := UnescapeNewlines(s[2..]);
      assert CountEscapes(s[1..]) == CountEscapes(s[2..]) by {
        assert s[1..][1..] == s[2..];
        assert !EscapeAt(s[1..], 0);
      }
      assert forall i :: EscapeAt("\n" + rest, i) ==> EscapeAt(rest, i - 1);
      "\n" + rest
    else
      var rest := UnescapeNewlines(s[1..]);
      assert forall i :: EscapeAt([s[0]] + rest, i) ==> EscapeAt(rest, i - 1);
      [s[0]] + rest
  }

  /** A line without the escape passes through unchanged. */
  lemma {:induction false} UnescapeIdentity(s: string)
    requires !HasEscapedNewline(s)
    ensures UnescapeNewlines(s) == s
    decreases |s|
  {
    if |s| >= 2 {
      assert !EscapeAt(s, 0);
      assert forall i :: EscapeAt(s[1..], i) ==> EscapeAt(s, i + 1);
      UnescapeIdentity(s[1..]);
      assert s == [s[0]] + s[1..];
    }
  }

  /** Each escape becomes exactly one line break and the text around it is
      unescaped on its own; with `UnescapeIdentity` this determines the
      replacement on every input. */
  lemma {:induction false} UnescapeSplit(p: string, q: string)
    ensures UnescapeNewlines(p + "\\n" + q) == UnescapeNewlines(p) + "\n" + UnescapeNewlines(q)
    decreases |p|
  {
    var s := p + "\\n" + q;
    if p == [] {
      assert s[2..] == q;
    } else if |p| == 1 {
      assert !EscapeAt(s, 0);
      assert s[1..] == "\\n" + q;
      UnescapeSplit([], q);
      assert [] + "\\n" + q == "\\n" + q;
    } else if EscapeAt(p, 0) {
      assert EscapeAt(s, 0);
      assert s[2..] == p[2..] + "\\n" + q;
      UnescapeSplit(p[2..], q);
    } else {
      assert !EscapeAt(s, 0);
      assert s[1..] == p[1..] + "\\n" + q;
      UnescapeSplit(p[1..], q);
    }
  }

  // ---------------------------------------------------------------------
  // filepath.Join(a, b) for two slash-free elements

  /** An element that `filepath.Clean` keeps as it is. */
  predicate Plain(e: string)
  {
    e != "" && e != "." && e != ".."
  }

  /** One step of `filepath.Clean` on a relative path: `out` holds the
      elements kept so far; empty and "." elements vanish, ".." removes the
      last kept element unless that is itself ".." (or nothing is kept, in
      which case ".." is kept). */
  function CleanStep(out: seq<string>, e: string): seq<string>
  {
    if e == "" || e == "." then out
    else if e == ".." then
      if |out| > 0 && out[|out| - 1] != ".." then out[..|out| - 1] else out + [".."]
    else out + [e]
  }

  /** `filepath.Join(a, b)` on Unix for slash-free `a` and `b`: "" when both
      are empty, otherwise `filepath.Clean(a + "/" + b)`, which is "." when
      no element survives. */
  function JoinPath(a: string, b: string): (r: string)
    requires '/' !in a && '/' !in b
    ensures Plain(a) && Plain(b) ==> r == a + "/" + b
    ensures r == "" <==> a == "" && b == ""
    ensures a == "" || b == "" ==> '/' !in r
    ensures Plain(a) && b == "" ==> r == a
    ensures a == "" && Plain(b) ==> r == b
  {
    if a == "" && b == "" then ""
    else
      var out := CleanStep(CleanStep([], a), b);
      if out == [] then "."
      else
        assert |out| == 1 ==> Join(out, '/') == out[0];
        assert |out| == 2 ==> Join(out, '/') == out[0] + "/" + out[1];
        Join(out, '/')
  }
}
