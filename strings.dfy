/** Text primitives the Python code gets from `str`: the substring test `p in s`,
    `lower()`, `split()`/`strip()`, slicing `s[:n]` and `str(int)`. */
module Strings {

  datatype Option<T> = None | Some(value: T)

  // ---------------------------------------------------------------------------
  // Substring test
  // ---------------------------------------------------------------------------

  /** `p` occurs in `s` starting at index `i`. */
  predicate MatchesAt(s: string, p: string, i: int)
    requires 0 <= i && i + |p| <= |s|
  {
    forall k | 0 <= k < |p| :: s[i + k] == p[k]
  }

  /** Python's `p in s` on strings (the empty string occurs everywhere). */
  predicate Contains(s: string, p: string)
  {
    exists i | 0 <= i <= |s| - |p| :: MatchesAt(s, p, i)
  }

  /** No occurrence when two adjacent characters of `p` never stand side by side in `s`. */
  lemma NoPair(s: string, p: string, k: int)
    requires 0 <= k && k + 1 < |p|
    requires forall i | 0 <= i < |s| - 1 :: !(s[i] == p[k] && s[i + 1] == p[k + 1])
    ensures !Contains(s, p)
  {
    forall i | 0 <= i <= |s| - |p|
      ensures !MatchesAt(s, p, i)
    {
      assert !(s[i + k] == p[k] && s[i + k + 1] == p[k + 1]);
    }
  }

  /** No occurrence when three adjacent characters of `p` never stand side by side in `s`. */
  lemma NoTriple(s: string, p: string, k: int)
    requires 0 <= k && k + 2 < |p|
    requires forall i | 0 <= i < |s| - 2 :: !(s[i] == p[k] && s[i + 1] == p[k + 1] && s[i + 2] == p[k + 2])
    ensures !Contains(s, p)
  {
    forall i | 0 <= i <= |s| - |p|
      ensures !MatchesAt(s, p, i)
    {
      assert !(s[i + k] == p[k] && s[i + k + 1] == p[k + 1] && s[i + k + 2] == p[k + 2]);
    }
  }

  /** No occurrence when some character of `p` is absent from `s`. */
  lemma NoChar(s: string, p: string, k: int)
    requires 0 <= k < |p|
    requires forall i | 0 <= i < |s| :: s[i] != p[k]
    ensures !Contains(s, p)
  {
    forall i | 0 <= i <= |s| - |p|
      ensures !MatchesAt(s, p, i)
    {
      assert s[i + k] != p[k];
    }
  }

  /** Python's `any(m in s for m in ps)`. */
  predicate AnyIn(s: string, ps: seq<string>)
  {
    exists k | 0 <= k < |ps| :: Contains(s, ps[k])
  }

  /** An occurrence of list entry `j` at position `i` makes the list hit. */
  lemma AnyInAt(s: string, ps: seq<string>, j: int, i: int)
    requires 0 <= j < |ps| && 0 <= i && i + |ps[j]| <= |s| && MatchesAt(s, ps[j], i)
    ensures AnyIn(s, ps)
  {
  }

  /** Python's `sum(1 for m in ps if m in s)`: list entries that occur, counted per entry. */
  function CountIn(s: string, ps: seq<string>): nat
  {
    if ps == [] then 0 else (if Contains(s, ps[0]) then 1 else 0) + CountIn(s, ps[1..])
  }

  lemma {:induction false} CountInPositive(s: string, ps: seq<string>)
    ensures CountIn(s, ps) > 0 <==> AnyIn(s, ps)
    ensures CountIn(s, ps) <= |ps|
  {
    if ps != [] {
      CountInPositive(s, ps[1..]);
      if AnyIn(s, ps[1..]) {
        var k :| 0 <= k < |ps[1..]| && Contains(s, ps[1..][k]);
        assert Contains(s, ps[k + 1]);
      }
      if AnyIn(s, ps) && !Contains(s, ps[0]) {
        var k :| 0 <= k < |ps| && Contains(s, ps[k]);
        assert k > 0 && Contains(s, ps[1..][k - 1]);
      }
    }
  }

  /** `sep.join(parts)`. */
  function Join(parts: seq<string>, sep: string): string
  {
    if parts == [] then "" else if |parts| == 1 then parts[0] else parts[0] + sep + Join(parts[1..], sep)
  }

  /** Prefix and suffix tests (`startswith`, `endswith`). */
  predicate StartsWith(s: string, p: string) { |p| <= |s| && s[..|p|] == p }
  predicate EndsWith(s: string, p: string) { |p| <= |s| && s[|s| - |p|..] == p }

  // ---------------------------------------------------------------------------
  // Case folding: `lower()` restricted to ASCII letters
  // ---------------------------------------------------------------------------

  function LowerChar(c: char): char
  {
    if 'A' <= c <= 'Z' then (c as int + 32) as char else c
  }

  function Lower(s: string): (r: string)
    ensures |r| == |s|
    ensures forall i | 0 <= i < |s| :: r[i] == LowerChar(s[i])
  {
    seq(|s|, i requires 0 <= i < |s| => LowerChar(s[i]))
  }

  predicate NoUpper(s: string) { forall i | 0 <= i < |s| :: s[i] < 'A' || 'Z' < s[i] }

  /** A string without upper-case ASCII letters is its own lower-case form. */
  lemma LowerAppend(a: string, b: string)
    ensures Lower(a + b) == Lower(a) + Lower(b)
  {
  }

  lemma LowerOfLower(s: string)
    requires NoUpper(s)
    ensures Lower(s) == s
  {
  }

  predicate IsAscii(s: string) { forall i | 0 <= i < |s| :: s[i] as int < 128 }

  // ---------------------------------------------------------------------------
  // Whitespace: `str.split()` with no argument and `str.strip()`
  // ---------------------------------------------------------------------------

  /** The characters Python's `str.isspace()` accepts. */
  predicate IsSpace(c: char)
  {
    c == ' ' || ('\t' <= c <= '\r') || ('\U{001C}' <= c <= '\U{001F}') || c == '\U{0085}'
    || c == '\U{00A0}' || c == '\U{1680}' || ('\U{2000}' <= c <= '\U{200A}') || c == '\U{2028}'
    || c == '\U{2029}' || c == '\U{202F}' || c == '\U{205F}' || c == '\U{3000}'
  }

  /** `s.strip() == ""`. */
  predicate IsBlank(s: string) { forall i | 0 <= i < |s| :: IsSpace(s[i]) }

  /** Length of the leading whitespace run. */
  function SpaceRun(s: string): (n: nat)
    ensures n <= |s|
    ensures forall i | 0 <= i < n :: IsSpace(s[i])
    ensures n < |s| ==> !IsSpace(s[n])
  {
    if s == [] || !IsSpace(s[0]) then 0 else 1 + SpaceRun(s[1..])
  }

  /** Length of the leading non-whitespace run. */
  function WordRun(s: string): (n: nat)
    ensures n <= |s|
    ensures forall i | 0 <= i < n :: !IsSpace(s[i])
    ensures n < |s| ==> IsSpace(s[n])
  {
    if s == [] || IsSpace(s[0]) then 0 else 1 + WordRun(s[1..])
  }

  /** `s.split()`: the maximal runs of non-whitespace characters, in order. */
  function Split(s: string): seq<string>
    decreases |s|
  {
    var r := SpaceRun(s);
    if r == |s| then [] else
      var t := s[r..];
      assert t[0] == s[r];
      var n := WordRun(t);
      [t[..n]] + Split(t[n..])
  }

  /** Every word of `split()` is non-empty and free of whitespace. */
  lemma {:induction false} SplitWords(s: string)
    ensures forall w | w in Split(s) :: w != [] && forall i | 0 <= i < |w| :: !IsSpace(w[i])
    decreases |s|
  {
    var r := SpaceRun(s);
    if r < |s| {
      var t := s[r..];
      assert t[0] == s[r];
      SplitWords(t[WordRun(t)..]);
    }
  }

  /** `split()` yields no word exactly when the string is blank. */
  lemma {:induction false} SplitEmptyIffBlank(s: string)
    ensures Split(s) == [] <==> IsBlank(s)
  {
    var r := SpaceRun(s);
    if r < |s| {
      var t := s[r..];
      assert t[0] == s[r];
      assert !IsSpace(t[0]);
      assert WordRun(t) > 0;
    }
  }

  // ---------------------------------------------------------------------------
  // Slicing
  // ---------------------------------------------------------------------------

  /** Length of `s[:k]` for a list of length `n`. */
  function SliceLength(n: nat, k: int): (r: nat)
    ensures r <= n
    ensures k >= 0 ==> r == if k < n then k else n
    ensures k < 0 ==> r == if n + k > 0 then n + k else 0
  {
    if k >= n then n else if k >= 0 then k else if n + k > 0 then n + k else 0
  }

  /** Python's `s[:n]` for any integer `n` (a negative `n` drops elements from the end). */
  function Prefix<T>(s: seq<T>, n: int): (r: seq<T>)
    ensures |r| == SliceLength(|s|, n) && r == s[..|r|]
    ensures n >= 0 ==> |r| == if n < |s| then n else |s|
    ensures n < 0 ==> |r| == if |s| + n > 0 then |s| + n else 0
  {
    if n >= |s| then s
    else if n >= 0 then s[..n]
    else if |s| + n > 0 then s[..|s| + n]
    else []
  }

  // ---------------------------------------------------------------------------
  // `str(n)` for integers
  // ---------------------------------------------------------------------------

  function DigitChar(d: int): (c: char)
    requires 0 <= d < 10
    ensures '0' <= c <= '9'
  {
    (48 + d) as char
  }

  function NatToString(n: nat): (r: string)
    ensures |r| > 0
    ensures forall i | 0 <= i < |r| :: '0' <= r[i] <= '9'
    ensures n < 10 <==> |r| == 1
  {
    if n < 10 then [DigitChar(n)] else NatToString(n / 10) + [DigitChar(n % 10)]
  }

  /** Decimal notation is injective, so distinct numbers give distinct strings. */
  lemma {:induction false} NatToStringInjective(m: nat, n: nat)
    requires NatToString(m) == NatToString(n)
    ensures m == n
  {
    if m >= 10 && n >= 10 {
      var a, b := NatToString(m), NatToString(n);
      assert a[|a| - 1] == b[|b| - 1];
      assert m % 10 == n % 10;
      assert a[..|a| - 1] == NatToString(m / 10);
      assert b[..|b| - 1] == NatToString(n / 10);
      NatToStringInjective(m / 10, n / 10);
    }
  }

  function IntToString(i: int): (r: string)
    ensures |r| > 0 && IsAscii(r)
  {
    if i < 0 then "-" + NatToString(-i) else NatToString(i)
  }
}
