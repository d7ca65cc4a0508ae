/** The handful of JavaScript string built-ins the core relies on
    (`includes`, `split`, `trim`, number-to-string conversion),
    written out as explicit functions on `seq<char>`. */
module JsString {
  import opened Wrappers

  /** `t` occurs in `s` starting at index `i`. */
  predicate OccursAt(s: string, t: string, i: nat) {
    i + |t| <= |s| && s[i..i + |t|] == t
  }

  /** The leftmost occurrence of `t` at or after `from`. */
  function IndexOfFrom(s: string, t: string, from: nat): (r: Option<nat>)
    ensures r.Some? ==> from <= r.value && OccursAt(s, t, r.value)
    ensures r.Some? ==> forall i: nat :: from <= i < r.value ==> !OccursAt(s, t, i)
    ensures r.None? ==> forall i: nat :: from <= i ==> !OccursAt(s, t, i)
    decreases |s| - from
  {
    if from + |t| > |s| then None
    else if s[from..from + |t|] == t then Some(from)
    else IndexOfFrom(s, t, from + 1)
  }

  /** `s.includes(t)` */
  predicate Includes(s: string, t: string) {
    IndexOfFrom(s, t, 0).Some?
  }

  lemma IncludesIff(s: string, t: string)
    ensures Includes(s, t) <==> exists i: nat :: OccursAt(s, t, i)
  {
  }

  /** A text lacking the first character of `t` does not include `t`. */
  lemma NotIncludedWithoutFirst(s: string, t: string)
    requires t != [] && t[0] !in s
    ensures !Includes(s, t)
  {
    IncludesIff(s, t);
    forall i: nat
      ensures !OccursAt(s, t, i)
    {
      if i + |t| <= |s| {
        assert s[i..i + |t|][0] == s[i] != t[0];
      }
    }
  }

  /** The first index at or after `from` that holds `c`, or `|s|` when there is none. */
  function ScanTo(s: string, c: char, from: nat): (k: nat)
    requires from <= |s|
    ensures from <= k <= |s|
    ensures forall i :: from <= i < k ==> s[i] != c
    ensures k < |s| ==> s[k] == c
    decreases |s| - from
  {
    if from == |s| || s[from] == c then from else ScanTo(s, c, from + 1)
  }

  /** The text before the first `c` (all of `s` when `c` does not occur). */
  function BeforeFirst(s: string, c: char): (r: string)
    ensures c !in r
    ensures r <= s
    ensures |r| < |s| <==> c in s
    ensures |r| < |s| ==> s[|r|] == c
  {
    s[..ScanTo(s, c, 0)]
  }

  /** Joins `parts` with `sep` between consecutive parts: `parts.join(sep)`. */
  function Join(parts: seq<string>, sep: char): string
    requires |parts| >= 1
  {
    if |parts| == 1 then parts[0] else parts[0] + [sep] + Join(parts[1..], sep)
  }

  /** `s.split(sep)` for a one-character separator: the maximal `sep`-free
      pieces of `s`, in order, including empty ones. */
  function Split(s: string, sep: char): (parts: seq<string>)
    ensures |parts| >= 1
    ensures forall j :: 0 <= j < |parts| ==> sep !in parts[j]
    ensures Join(parts, sep) == s
    ensures |parts| >= 2 <==> sep in s
    decreases |s|
  {
    var head := BeforeFirst(s, sep);
    if |head| == |s| then [s]
    else [head] + Split(s[|head| + 1..], sep)
  }

  /** The text before the first `c` of `a + rest` is `a` itself when `a`
      holds no `c` and `rest` is empty or starts with `c`. */
  lemma BeforeFirstOf(a: string, c: char, rest: string)
    requires c !in a
    requires rest == [] || rest[0] == c
    ensures BeforeFirst(a + rest, c) == a
  {
    var s := a + rest;
    var r := BeforeFirst(s, c);
    assert s[..|a|] == a;
    if |r| < |a| {
      assert false;
    } else if |r| > |a| {
      assert false;
    }
  }

  /** Splitting `a/rest` yields `a` followed by the pieces of `rest`. */
  lemma SplitStep(a: string, c: char, rest: string)
    requires c !in a
    ensures Split(a + [c] + rest, c) == [a] + Split(rest, c)
  {
    var s := a + [c] + rest;
    BeforeFirstOf(a, c, [c] + rest);
    assert a + ([c] + rest) == s;
    assert s[|a| + 1..] == rest;
  }

  /** The first piece of `b + rest` is `b` when `rest` is empty or starts with `c`. */
  lemma SplitHead(b: string, c: char, rest: string)
    requires c !in b
    requires rest == [] || rest[0] == c
    ensures Split(b + rest, c)[0] == b
  {
    BeforeFirstOf(b, c, rest);
  }

  /** The first two pieces of `a/b…` are `a` and `b`. */
  lemma SplitFirstTwo(a: string, b: string, c: char, rest: string)
    requires c !in a && c !in b
    requires rest == [] || rest[0] == c
    ensures |Split(a + [c] + b + rest, c)| >= 2
    ensures Split(a + [c] + b + rest, c)[0] == a
    ensures Split(a + [c] + b + rest, c)[1] == b
  {
    assert a + [c] + b + rest == a + [c] + (b + rest);
    SplitStep(a, c, b + rest);
    SplitHead(b, c, rest);
  }

  /** Splitting undoes joining, provided no part contains the separator. */
  lemma {:induction false} SplitJoin(parts: seq<string>, sep: char)
    requires |parts| >= 1
    requires forall j :: 0 <= j < |parts| ==> sep !in parts[j]
    ensures Split(Join(parts, sep), sep) == parts
    decreases |parts|
  {
    var s := Join(parts, sep);
    if |parts| == 1 {
      assert BeforeFirst(s, sep) == s;
    } else {
      var rest := Join(parts[1..], sep);
      assert s == parts[0] + [sep] + rest;
      assert s[..|parts[0]|] == parts[0];
      assert s[|parts[0]|] == sep;
      var head := BeforeFirst(s, sep);
      assert |head| == |parts[0]| by {
        if |head| < |parts[0]| {
          assert false;
        } else if |head| > |parts[0]| {
          assert false;
        }
      }
      assert head == parts[0];
      assert s[|head| + 1..] == rest;
      SplitJoin(parts[1..], sep);
    }
  }

  /** The characters `String.prototype.trim` removes: the ECMAScript
      WhiteSpace and LineTerminator code points. */
  predicate IsWhitespace(ch: char) {
    || ch == '\t' || ch == '\n' || ch == '\U{0B}' || ch == '\U{0C}' || ch == '\r'
    || ch == ' ' || ch == '\U{A0}' || ch == '\U{1680}'
    || ('\U{2000}' <= ch <= '\U{200A}')
    || ch == '\U{2028}' || ch == '\U{2029}' || ch == '\U{202F}' || ch == '\U{205F}'
    || ch == '\U{3000}' || ch == '\U{FEFF}'
  }

  /** Number of leading whitespace characters of `s`. */
  function LeadingSpace(s: string): (n: nat)
    ensures n <= |s|
    ensures forall i :: 0 <= i < n ==> IsWhitespace(s[i])
    ensures n < |s| ==> !IsWhitespace(s[n])
    decreases |s|
  {
    if |s| == 0 || !IsWhitespace(s[0]) then 0 else 1 + LeadingSpace(s[1..])
  }

  /** Number of trailing whitespace characters of `s`. */
  function TrailingSpace(s: string): (n: nat)
    ensures n <= |s|
    ensures forall i :: |s| - n <= i < |s| ==> IsWhitespace(s[i])
    ensures n < |s| ==> !IsWhitespace(s[|s| - n - 1])
    decreases |s|
  {
    if |s| == 0 || !IsWhitespace(s[|s| - 1]) then 0 else 1 + TrailingSpace(s[..|s| - 1])
  }

  /** `s.trim()`: `s` without its leading and trailing whitespace. */
  function Trim(s: string): (r: string)
    ensures var a := LeadingSpace(s);
      && a + |r| <= |s|
      && r == s[a..a + |r|]
      && (forall i :: a + |r| <= i < |s| ==> IsWhitespace(s[i]))
    ensures r != [] ==> !IsWhitespace(r[0]) && !IsWhitespace(r[|r| - 1])
    ensures r == [] <==> forall i :: 0 <= i < |s| ==> IsWhitespace(s[i])
  {
    var t := s[LeadingSpace(s)..];
    t[..|t| - TrailingSpace(t)]
  }

  lemma {:induction false} LeadingSpaceOf(a: string, y: string)
    requires forall i :: 0 <= i < |a| ==> IsWhitespace(a[i])
    requires y == [] || !IsWhitespace(y[0])
    ensures LeadingSpace(a + y) == |a|
    decreases |a|
  {
    if a != [] {
      assert (a + y)[1..] == a[1..] + y;
      LeadingSpaceOf(a[1..], y);
    } else {
      assert a + y == y;
    }
  }

  lemma {:induction false} TrailingSpaceOf(y: string, b: string)
    requires forall i :: 0 <= i < |b| ==> IsWhitespace(b[i])
    requires y == [] || !IsWhitespace(y[|y| - 1])
    ensures TrailingSpace(y + b) == |b|
    decreases |b|
  {
    if b != [] {
      assert (y + b)[..|y + b| - 1] == y + b[..|b| - 1];
      TrailingSpaceOf(y, b[..|b| - 1]);
    } else {
      assert y + b == y;
    }
  }

  /** Trimming removes exactly the whitespace around a text that starts
      and ends with non-whitespace. */
  lemma TrimAround(a: string, x: string, b: string)
    requires forall i :: 0 <= i < |a| ==> IsWhitespace(a[i])
    requires forall i :: 0 <= i < |b| ==> IsWhitespace(b[i])
    requires x != [] && !IsWhitespace(x[0]) && !IsWhitespace(x[|x| - 1])
    ensures Trim(a + x + b) == x
  {
    var s := a + x + b;
    assert s == a + (x + b);
    LeadingSpaceOf(a, x + b);
    var t := s[|a|..];
    assert t == x + b;
    TrailingSpaceOf(x, b);
    assert t[..|t| - |b|] == x;
  }

  lemma TrimIdempotent(s: string)
    ensures Trim(Trim(s)) == Trim(s)
  {
    var r := Trim(s);
    if r != [] {
      assert LeadingSpace(r) == 0;
      assert TrailingSpace(r) == 0;
    }
  }

  predicate IsDigit(ch: char) {
    '0' <= ch <= '9'
  }

  function DigitChar(d: nat): (ch: char)
    requires d < 10
    ensures IsDigit(ch)
  {
    "0123456789"[d]
  }

  function DigitValue(ch: char): (d: nat)
    requires IsDigit(ch)
    ensures d < 10
  {
    (ch - '0') as nat
  }

  /** The decimal rendering of a non-negative integer, as JavaScript's
      `${n}` produces it: no sign, no leading zeros. */
  function NatToString(n: nat): (r: string)
    ensures |r| >= 1
    ensures forall i :: 0 <= i < |r| ==> IsDigit(r[i])
    ensures r[0] == '0' ==> r == "0"
    decreases n
  {
    if n < 10 then [DigitChar(n)] else NatToString(n / 10) + [DigitChar(n % 10)]
  }

  /** The number a string of decimal digits denotes. */
  function DecimalValue(r: string): nat
    requires forall i :: 0 <= i < |r| ==> IsDigit(r[i])
    decreases |r|
  {
    if r == [] then 0 else 10 * DecimalValue(r[..|r| - 1]) + DigitValue(r[|r| - 1])
  }

  lemma {:induction false} DecimalRoundTrip(n: nat)
    ensures DecimalValue(NatToString(n)) == n
    decreases n
  {
    var r := NatToString(n);
    if n < 10 {
      assert r[..|r| - 1] == [];
    } else {
      DecimalRoundTrip(n / 10);
      assert r[..|r| - 1] == NatToString(n / 10);
    }
  }

  /** Distinct numbers render differently. */
  lemma NatToStringInjective(a: nat, b: nat)
    requires NatToString(a) == NatToString(b)
    ensures a == b
  {
    DecimalRoundTrip(a);
    DecimalRoundTrip(b);
  }
}
