/** Character classes and the string primitives the exporter's string logic is
    built from: ASCII lower-casing, trimming a run of one class of characters off
    either end (JavaScript's `trim()`, the hyphen strip `/^-+|-+$/g`), and deleting
    every character of a class. */
module Text {

  /** The regular-expression class `[a-z0-9]`. */
  predicate IsSlugChar(c: char) {
    ('a' <= c <= 'z') || ('0' <= c <= '9')
  }

  predicate IsUpper(c: char) {
    'A' <= c <= 'Z'
  }

  predicate IsDigit(c: char) {
    '0' <= c <= '9'
  }

  /** ECMAScript WhiteSpace and LineTerminator code points: what `trim()` and
      `parseFloat` skip and what `\s` matches in a regular expression. */
  predicate IsJsSpace(c: char) {
    || c == '\t' || c == '\n' || c == '\U{000B}' || c == '\U{000C}' || c == '\r'
    || c == ' ' || c == '\U{00A0}' || c == '\U{1680}'
    || ('\U{2000}' <= c <= '\U{200A}')
    || c == '\U{2028}' || c == '\U{2029}' || c == '\U{202F}' || c == '\U{205F}'
    || c == '\U{3000}' || c == '\U{FEFF}'
  }

  /** `toLowerCase` on one character, restricted to ASCII: `A`-`Z` become `a`-`z`
      and every other character is kept. */
  function LowerChar(c: char): (r: char)
    ensures !IsUpper(r)
    ensures IsSlugChar(r) <==> IsSlugChar(c) || IsUpper(c)
    ensures IsUpper(c) ==> r as int - 'a' as int == c as int - 'A' as int
    ensures !IsUpper(c) ==> r == c
  {
    if IsUpper(c) then (c as int - 'A' as int + 'a' as int) as char else c
  }

  /** `toLowerCase` on a string, character by character. */
  function Lower(s: string): (r: string)
    ensures |r| == |s|
    ensures forall i :: 0 <= i < |s| ==> r[i] == LowerChar(s[i])
    ensures forall i :: 0 <= i < |r| ==> !IsUpper(r[i])
  {
    seq(|s|, i requires 0 <= i < |s| => LowerChar(s[i]))
  }

  /** A string without upper-case letters is its own lower-case form. */
  lemma {:induction false} LowerNoUpper(s: string)
    requires forall i :: 0 <= i < |s| ==> !IsUpper(s[i])
    ensures Lower(s) == s
  {
  }

  /** A class of characters that can be trimmed off an end of a string or deleted. */
  datatype Class = Space | Digit | NonSlug | NonAlnum | Only(ch: char) | NoneOf(chars: string)

  predicate InClass(k: Class, c: char) {
    match k
    case Space => IsJsSpace(c)
    case Digit => IsDigit(c)
    case NonSlug => !IsSlugChar(c)
    case NonAlnum => !IsSlugChar(c) && !IsUpper(c)
    case Only(d) => c == d
    case NoneOf(cs) => c !in cs
  }

  predicate AllIn(k: Class, s: string) {
    forall i :: 0 <= i < |s| ==> InClass(k, s[i])
  }

  /** The length of the longest prefix of `s` made of characters of class `k`
      (`LeadingRunSpec` states what it is). */
  function LeadingRun(s: string, k: Class): (n: nat)
    ensures n <= |s|
    decreases |s|
  {
    if s != [] && InClass(k, s[0]) then 1 + LeadingRun(s[1..], k) else 0
  }

  /** The leading run is all of class `k` and is followed by a character outside it. */
  lemma {:induction false} LeadingRunSpec(s: string, k: Class)
    ensures AllIn(k, s[..LeadingRun(s, k)])
    ensures LeadingRun(s, k) < |s| ==> !InClass(k, s[LeadingRun(s, k)])
    decreases |s|
  {
    if s != [] && InClass(k, s[0]) {
      LeadingRunSpec(s[1..], k);
      var n := LeadingRun(s, k);
      assert forall i :: 1 <= i < n ==> s[..n][i] == s[1..][..n - 1][i - 1];
    }
  }

  /** The length of the longest run of characters of class `k` that ends just
      before position `e`. */
  function RunBefore(s: string, k: Class, e: nat): (n: nat)
    requires e <= |s|
    ensures n <= e
    decreases e
  {
    if e > 0 && InClass(k, s[e - 1]) then 1 + RunBefore(s, k, e - 1) else 0
  }

  lemma {:induction false} RunBeforeSpec(s: string, k: Class, e: nat)
    requires e <= |s|
    ensures forall i :: e - RunBefore(s, k, e) <= i < e ==> InClass(k, s[i])
    ensures RunBefore(s, k, e) < e ==> !InClass(k, s[e - RunBefore(s, k, e) - 1])
    decreases e
  {
    if e > 0 && InClass(k, s[e - 1]) {
      RunBeforeSpec(s, k, e - 1);
    }
  }

  /** The length of the longest suffix of `s` made of characters of class `k`
      (`TrailingRunSpec` states what it is). */
  function TrailingRun(s: string, k: Class): (n: nat)
    ensures n <= |s|
  {
    RunBefore(s, k, |s|)
  }

  /** The trailing run is all of class `k` and is preceded by a character outside it. */
  lemma {:induction false} TrailingRunSpec(s: string, k: Class)
    ensures AllIn(k, s[|s| - TrailingRun(s, k)..])
    ensures TrailingRun(s, k) < |s| ==> !InClass(k, s[|s| - TrailingRun(s, k) - 1])
  {
    var n := TrailingRun(s, k);
    RunBeforeSpec(s, k, |s|);
    var tail := s[|s| - n..];
    assert forall i :: 0 <= i < n ==> tail[i] == s[|s| - n + i];
  }

  /** The leading run is the only length with those two properties. */
  lemma {:induction false} LeadingRunUnique(s: string, k: Class, m: nat)
    requires m <= |s| && AllIn(k, s[..m]) && (m < |s| ==> !InClass(k, s[m]))
    ensures m == LeadingRun(s, k)
    decreases |s|
  {
    if m > 0 {
      var t, head := s[1..], s[..m];
      var rest := t[..m - 1];
      assert head[0] == s[0];
      assert forall i :: 0 <= i < m - 1 ==> rest[i] == head[i + 1];
      if m - 1 < |t| {
        assert t[m - 1] == s[m];
      }
      LeadingRunUnique(t, k, m - 1);
    }
  }

  /** Removes the longest prefix of `s` made of characters of class `k`. */
  function TrimStart(s: string, k: Class): string {
    s[LeadingRun(s, k)..]
  }

  /** Removes the longest suffix of `s` made of characters of class `k`. */
  function TrimEnd(s: string, k: Class): string {
    s[..|s| - TrailingRun(s, k)]
  }

  /** `String.prototype.trim`. */
  function Trim(s: string): string {
    TrimEnd(TrimStart(s, Space), Space)
  }

  /** Trimming class `k` off both ends keeps the slice between the leading and
      the trailing run; everything cut off is of class `k`, and what is left
      neither starts nor ends with class `k`. */
  lemma {:induction false} TrimBothSlice(s: string, k: Class) returns (p: nat, q: nat)
    ensures p <= q <= |s| && TrimEnd(TrimStart(s, k), k) == s[p..q]
    ensures AllIn(k, s[..p]) && AllIn(k, s[q..])
    ensures p < q ==> !InClass(k, s[p]) && !InClass(k, s[q - 1])
    ensures p == q ==> AllIn(k, s)
  {
    p := LeadingRun(s, k);
    LeadingRunSpec(s, k);
    var t := s[p..];
    var m := TrailingRun(t, k);
    TrailingRunSpec(t, k);
    q := |s| - m;
    if p == |s| {
      q := p;
      assert s[..p] == s;
    } else {
      assert t[0] == s[p];
      assert t[|t| - m..] == s[q..];
      assert t[..|t| - m] == s[p..q];
      if m < |t| {
        assert t[|t| - m - 1] == s[q - 1];
      }
    }
    if p == q {
      assert p == |s|;
      assert s[..p] == s;
    }
  }

  /** A string that neither starts nor ends with class `k` is not changed by trimming. */
  lemma {:induction false} TrimBothNoOp(s: string, k: Class)
    requires s == [] || (!InClass(k, s[0]) && !InClass(k, s[|s| - 1]))
    ensures TrimEnd(TrimStart(s, k), k) == s
  {
  }

  /** `trim()` yields the empty string exactly when every character is whitespace. */
  lemma {:induction false} TrimEmptyIff(s: string)
    ensures Trim(s) == [] <==> AllIn(Space, s)
  {
    var p, q := TrimBothSlice(s, Space);
  }

  /** Deletes every character of class `k` from `s`, keeping the order of the rest. */
  function Without(s: string, k: Class): (r: string)
    ensures |r| <= |s|
    decreases |s|
  {
    if s == [] then []
    else (if InClass(k, s[0]) then [] else [s[0]]) + Without(s[1..], k)
  }

  /** Deleting distributes over concatenation. */
  lemma {:induction false} WithoutConcat(a: string, b: string, k: Class)
    ensures Without(a + b, k) == Without(a, k) + Without(b, k)
    decreases |a|
  {
    if a == [] {
      assert a + b == b;
    } else {
      assert (a + b)[0] == a[0];
      assert (a + b)[1..] == a[1..] + b;
      WithoutConcat(a[1..], b, k);
    }
  }

  /** Nothing is left of a string made only of class `k`. */
  lemma {:induction false} WithoutAllIn(s: string, k: Class)
    requires AllIn(k, s)
    ensures Without(s, k) == []
    decreases |s|
  {
    if s != [] {
      WithoutAllIn(s[1..], k);
    }
  }

  /** A string with no character of class `k` is kept whole. */
  lemma {:induction false} WithoutNoneIn(s: string, k: Class)
    requires forall i :: 0 <= i < |s| ==> !InClass(k, s[i])
    ensures Without(s, k) == s
    decreases |s|
  {
    if s != [] {
      WithoutNoneIn(s[1..], k);
      assert s == [s[0]] + s[1..];
    }
  }

  /** Lower-casing twice is lower-casing once. */
  lemma {:induction false} LowerIdempotent(s: string)
    ensures Lower(Lower(s)) == Lower(s)
  {
    LowerNoUpper(Lower(s));
  }

  /** Lower-casing works on each part of a concatenation. */
  lemma {:induction false} LowerConcat(a: string, b: string)
    ensures Lower(a + b) == Lower(a) + Lower(b)
  {
    assert forall i :: 0 <= i < |a| ==> (a + b)[i] == a[i];
    assert forall i :: |a| <= i < |a + b| ==> (a + b)[i] == b[i - |a|];
  }

  /** The letters and digits of a lower-cased string are the ASCII letters and
      the digits of the string, in order, lower-cased: lower-casing neither
      makes nor loses a letter or digit. */
  lemma {:induction false} LowerWithout(s: string)
    ensures Without(Lower(s), NonSlug) == Lower(Without(s, NonAlnum))
    decreases |s|
  {
    if s != [] {
      var head := if InClass(NonAlnum, s[0]) then [] else [s[0]];
      assert s == [s[0]] + s[1..];
      LowerConcat([s[0]], s[1..]);
      var l := Lower(s);
      assert l[0] == LowerChar(s[0]) && l[1..] == Lower(s[1..]);
      LowerWithout(s[1..]);
      LowerConcat(head, Without(s[1..], NonAlnum));
    }
  }
}
