/** The parts of Python's `str` behaviour the repository relies on:
    `strip` (with and without an argument), `lower`, the last field of
    `split`/`rsplit` and `join`. Strings are sequences of code points, so
    `|s|` is Python's `len(s)`. */
module PyStr {

  /** The code points for which Python's `str.isspace()` holds; `str.strip()`
      with no argument removes exactly these. */
  predicate IsSpace(c: char) {
    || '\t' <= c <= '\r'
    || '\U{1C}' <= c <= ' '
    || c == '\U{85}' || c == '\U{A0}' || c == '\U{1680}'
    || '\U{2000}' <= c <= '\U{200A}'
    || c == '\U{2028}' || c == '\U{2029}' || c == '\U{202F}' || c == '\U{205F}' || c == '\U{3000}'
  }

  /** Every character of `s` satisfies `drop`. */
  predicate AllIn(s: string, drop: char -> bool) {
    forall k {:trigger drop(s[k])} :: 0 <= k < |s| ==> drop(s[k])
  }

  /** How many characters `s.lstrip(chars)` removes, where `drop` tells the
      characters of `chars`: the length of the longest prefix of such
      characters. */
  function LeadCount(s: string, drop: char -> bool): (n: nat)
    ensures n <= |s|
    ensures forall k {:trigger drop(s[k])} :: 0 <= k < n ==> drop(s[k])
    ensures n < |s| ==> !drop(s[n])
  {
    if |s| == 0 || !drop(s[0]) then 0 else 1 + LeadCount(s[1..], drop)
  }

  /** How many characters `s.rstrip(chars)` removes: the length of the
      longest suffix of characters satisfying `drop`. */
  function TrailCount(s: string, drop: char -> bool): (n: nat)
    ensures n <= |s|
    ensures forall k {:trigger drop(s[k])} :: |s| - n <= k < |s| ==> drop(s[k])
    ensures n < |s| ==> !drop(s[|s| - 1 - n])
  {
    if |s| == 0 || !drop(s[|s| - 1]) then 0 else 1 + TrailCount(s[..|s| - 1], drop)
  }

  /** The three facts `LeadCount` promises pin it down. */
  lemma LeadCountUnique(s: string, drop: char -> bool, n: nat)
    requires n <= |s| && (forall k :: 0 <= k < n ==> drop(s[k])) && (n < |s| ==> !drop(s[n]))
    ensures n == LeadCount(s, drop)
  {
  }

  /** The three facts `TrailCount` promises pin it down. */
  lemma TrailCountUnique(s: string, drop: char -> bool, n: nat)
    requires n <= |s| && (forall k :: |s| - n <= k < |s| ==> drop(s[k]))
    requires n < |s| ==> !drop(s[|s| - 1 - n])
    ensures n == TrailCount(s, drop)
  {
  }

  /** `s.strip(chars)`: remove characters satisfying `drop` from both ends.
      The result is empty exactly when every character of `s` satisfies
      `drop`, and otherwise begins and ends with a character that does not. */
  function Strip(s: string, drop: char -> bool): (r: string)
    ensures |r| <= |s|
    ensures r == [] <==> AllIn(s, drop)
    ensures r != [] ==> !drop(r[0]) && !drop(r[|r| - 1])
  {
    var i := LeadCount(s, drop);
    if i == |s| then []
    else
      var j := |s| - TrailCount(s, drop);
      assert i < j;
      s[i..j]
  }

  /** `Strip` removes exactly the droppable prefix `s[..i]` and suffix
      `s[j..]` when `s[i]` and `s[j - 1]` are kept. */
  lemma StripExact(s: string, drop: char -> bool, i: nat, j: nat)
    requires i < j <= |s| && !drop(s[i]) && !drop(s[j - 1])
    requires forall k :: 0 <= k < i ==> drop(s[k])
    requires forall k :: j <= k < |s| ==> drop(s[k])
    ensures Strip(s, drop) == s[i..j]
  {
    LeadCountUnique(s, drop, i);
    TrailCountUnique(s, drop, |s| - j);
  }

  /** `s.strip()`: strip Python whitespace. */
  function Trim(s: string): (r: string)
  {
    Strip(s, IsSpace)
  }

  /** Python's `not s.strip()`: the string is empty or all whitespace. */
  predicate IsBlank(s: string) {
    Trim(s) == []
  }

  /** What `Strip` removes: a prefix and a suffix of characters satisfying
      `drop`, leaving the contiguous middle `s[i..j]`. */
  lemma StripBounds(s: string, drop: char -> bool) returns (i: nat, j: nat)
    ensures i <= j <= |s|
    ensures Strip(s, drop) == s[i..j]
    ensures forall k :: 0 <= k < i ==> drop(s[k])
    ensures forall k :: j <= k < |s| ==> drop(s[k])
  {
    i := LeadCount(s, drop);
    j := if i == |s| then i else |s| - TrailCount(s, drop);
  }

  /** A slice of a slice is a slice of the original. */
  lemma SliceOfSlice(s: string, a: nat, b: nat, c: nat, d: nat)
    requires a <= b <= |s| && c <= d <= b - a
    ensures s[a..b][c..d] == s[a + c..a + d]
  {
    assert forall k :: 0 <= k < d - c ==> s[a..b][c..d][k] == s[a + c + k];
  }

  /** Stripping a slice `s[i1..j1]` again leaves a smaller slice of `s`;
      every character removed satisfies `drop`. */
  lemma StripSliceBounds(s: string, i1: nat, j1: nat, drop: char -> bool) returns (i: nat, j: nat)
    requires i1 <= j1 <= |s|
    ensures i1 <= i <= j <= j1 && Strip(s[i1..j1], drop) == s[i..j]
    ensures forall k :: i1 <= k < i ==> drop(s[k])
    ensures forall k :: j <= k < j1 ==> drop(s[k])
  {
    var a := s[i1..j1];
    var i2, j2 := StripBounds(a, drop);
    SliceOfSlice(s, i1, j1, i2, j2);
    i := i1 + i2;
    j := i1 + j2;
    forall k | i1 <= k < i ensures drop(s[k]) {
      assert s[k] == a[k - i1];
    }
    forall k | j <= k < j1 ensures drop(s[k]) {
      assert s[k] == a[k - i1];
    }
  }

  /** Two strips in a row, as in `s.strip(a).strip(b)`, leave a contiguous
      middle of `s`; every character removed satisfies one of the two
      predicates. */
  lemma Strip2Bounds(s: string, d1: char -> bool, d2: char -> bool) returns (i: nat, j: nat)
    ensures i <= j <= |s| && Strip(Strip(s, d1), d2) == s[i..j]
    ensures forall k :: 0 <= k < i ==> d1(s[k]) || d2(s[k])
    ensures forall k :: j <= k < |s| ==> d1(s[k]) || d2(s[k])
  {
    var i1, j1 := StripBounds(s, d1);
    i, j := StripSliceBounds(s, i1, j1, d2);
  }

  /** Three strips in a row, as in `s.strip(a).strip(b).strip(c)`, leave a
      contiguous middle of `s`; every character removed satisfies one of the
      three predicates. */
  lemma Strip3Bounds(s: string, d1: char -> bool, d2: char -> bool, d3: char -> bool) returns (i: nat, j: nat)
    ensures i <= j <= |s| && Strip(Strip(Strip(s, d1), d2), d3) == s[i..j]
    ensures forall k :: 0 <= k < i ==> d1(s[k]) || d2(s[k]) || d3(s[k])
    ensures forall k :: j <= k < |s| ==> d1(s[k]) || d2(s[k]) || d3(s[k])
  {
    var i1, j1 := Strip2Bounds(s, d1, d2);
    i, j := StripSliceBounds(s, i1, j1, d3);
  }

  /** Stripping is idempotent: a stripped string has nothing left to strip. */
  lemma StripIdempotent(s: string, drop: char -> bool)
    ensures Strip(Strip(s, drop), drop) == Strip(s, drop)
  {
    var r := Strip(s, drop);
    if r != [] {
      LeadCountUnique(r, drop, 0);
      TrailCountUnique(r, drop, 0);
      assert r[0..|r|] == r;
    }
  }

  /** A trailing character satisfying `drop` does not change the stripped
      result. */
  lemma StripDropsTrailing(x: string, c: char, drop: char -> bool)
    requires drop(c)
    ensures Strip(x + [c], drop) == Strip(x, drop)
  {
    var s := x + [c];
    assert forall k :: 0 <= k < |x| ==> s[k] == x[k];
    assert s[|x|] == c;
    var i := LeadCount(x, drop);
    if i == |x| {
      LeadCountUnique(s, drop, |s|);
    } else {
      LeadCountUnique(s, drop, i);
      var t := TrailCount(x, drop);
      TrailCountUnique(s, drop, t + 1);
      assert s[i..|s| - (t + 1)] == x[i..|x| - t];
    }
  }

  /** ASCII-only `str.lower()` on one character. */
  function LowerChar(c: char): (d: char)
    ensures 'A' <= c <= 'Z' ==> 'a' <= d <= 'z' && d as int - c as int == 32
    ensures !('A' <= c <= 'Z') ==> d == c
  {
    if 'A' <= c <= 'Z' then (c as int + 32) as char else c
  }

  /** `s.lower()`, character by character. */
  function Lower(s: string): (r: string)
    ensures |r| == |s|
    ensures forall k :: 0 <= k < |s| ==> r[k] == LowerChar(s[k])
  {
    if |s| == 0 then [] else [LowerChar(s[0])] + Lower(s[1..])
  }

  /** `s.split(sep)[-1]`, which is also `s.rsplit(sep, 1)[1]` when `sep`
      occurs in `s`: the text after the last `sep`, or all of `s` when `sep`
      does not occur in it. */
  function LastField(s: string, sep: char): (r: string)
    ensures |r| <= |s| && r == s[|s| - |r|..]
    ensures sep !in r
    ensures |r| < |s| ==> s[|s| - |r| - 1] == sep
  {
    if |s| == 0 then []
    else if s[|s| - 1] == sep then []
    else
      var r := LastField(s[..|s| - 1], sep);
      assert s[..|s| - 1][|s| - 1 - |r|..] + [s[|s| - 1]] == s[|s| - 1 - |r|..];
      r + [s[|s| - 1]]
  }

  /** The last field is exactly the text after the last occurrence of `sep`:
      whichever position holds a `sep` with none after it, the field starts
      just past it. */
  lemma LastFieldAfterLastSep(s: string, sep: char, i: int)
    requires 0 <= i < |s| && s[i] == sep && sep !in s[i + 1..]
    ensures LastField(s, sep) == s[i + 1..]
  {
    var r := LastField(s, sep);
    assert forall k :: |s| - |r| <= k < |s| ==> s[k] == r[k - (|s| - |r|)];
    assert forall k :: i < k < |s| ==> s[k] == s[i + 1..][k - i - 1];
  }

  /** When `sep` occurs in `s`, the last field starts just past a `sep`
      with none after it. */
  lemma LastSepPosition(s: string, sep: char) returns (i: nat)
    requires sep in s
    ensures i < |s| && s[i] == sep && sep !in s[i + 1..]
    ensures s[i + 1..] == LastField(s, sep)
  {
    var r := LastField(s, sep);
    assert |r| < |s| by {
      assert s[|s| - |r|..] == r;
    }
    i := |s| - |r| - 1;
  }

  /** Python's `sep.join(parts)`. */
  function Join(sep: string, parts: seq<string>): string {
    if |parts| == 0 then []
    else if |parts| == 1 then parts[0]
    else parts[0] + sep + Join(sep, parts[1..])
  }

  /** Each part followed by `term`, concatenated: what a loop doing
      `text += part + term` accumulates. */
  function Terminated(parts: seq<string>, term: string): string {
    if |parts| == 0 then [] else parts[0] + term + Terminated(parts[1..], term)
  }

  /** Terminating every part is joining them and adding one final terminator. */
  lemma {:induction false} TerminatedIsJoinPlusTerm(parts: seq<string>, term: string)
    requires |parts| > 0
    ensures Terminated(parts, term) == Join(term, parts) + term
  {
    if |parts| > 1 {
      TerminatedIsJoinPlusTerm(parts[1..], term);
    }
  }

  /** Where part `i` starts inside `Join(sep, parts)`: after every earlier part
      and one separator behind each of them. */
  function Offset(sep: string, parts: seq<string>, i: nat): nat
    requires i <= |parts|
  {
    if i == 0 then 0 else |parts[0]| + |sep| + Offset(sep, parts[1..], i - 1)
  }

  /** Consecutive offsets are one part and one separator apart. */
  lemma {:induction false} OffsetStep(sep: string, parts: seq<string>, i: nat)
    requires i < |parts|
    ensures Offset(sep, parts, i + 1) == Offset(sep, parts, i) + |parts[i]| + |sep|
  {
    if i > 0 {
      OffsetStep(sep, parts[1..], i - 1);
    }
  }

  /** A slice of the right operand, read through a concatenation. */
  lemma SliceRight(a: string, b: string, x: nat, y: nat)
    requires x <= y <= |b|
    ensures (a + b)[|a| + x..|a| + y] == b[x..y]
  {
  }

  /** `Join` keeps every part, in order, at its own offset, with the separator
      right after each part but the last. With `OffsetStep` this lays out the
      whole joined string: nothing dropped, duplicated or reordered. */
  lemma {:induction false} JoinLayout(sep: string, parts: seq<string>, i: nat)
    requires i < |parts|
    ensures Offset(sep, parts, i) + |parts[i]| <= |Join(sep, parts)|
    ensures Join(sep, parts)[Offset(sep, parts, i)..Offset(sep, parts, i) + |parts[i]|] == parts[i]
    ensures i + 1 < |parts| ==> Offset(sep, parts, i) + |parts[i]| + |sep| <= |Join(sep, parts)|
    ensures i + 1 < |parts| ==>
      Join(sep, parts)[Offset(sep, parts, i) + |parts[i]|..Offset(sep, parts, i) + |parts[i]| + |sep|] == sep
    ensures i + 1 == |parts| ==> Offset(sep, parts, i) + |parts[i]| == |Join(sep, parts)|
  {
    if |parts| == 1 {
      assert Join(sep, parts) == parts[0];
    } else if i == 0 {
      var j := Join(sep, parts);
      assert j == parts[0] + sep + Join(sep, parts[1..]);
      assert j[..|parts[0]|] == parts[0];
      assert j[|parts[0]|..|parts[0]| + |sep|] == sep;
    } else {
      var rest := parts[1..];
      var head := parts[0] + sep;
      var o := Offset(sep, rest, i - 1);
      JoinLayout(sep, rest, i - 1);
      assert Join(sep, parts) == head + Join(sep, rest);
      assert rest[i - 1] == parts[i];
      assert Offset(sep, parts, i) == |head| + o;
      SliceRight(head, Join(sep, rest), o, o + |parts[i]|);
      if i + 1 < |parts| {
        SliceRight(head, Join(sep, rest), o + |parts[i]|, o + |parts[i]| + |sep|);
      }
    }
  }
}
