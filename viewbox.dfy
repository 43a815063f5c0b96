/** Reading the size out of the SVG source: the scan
    `svgCode.match(/viewBox=["']([^"']+)["']/)`, the split of the captured value,
    and `parseFloat` on the two fields the destructuring picks. */
module ViewBox {
  import opened Wrappers
  import opened Text
  import opened Number

  const Attribute: string := "viewBox="
  const Quotes: string := "\"'"

  predicate IsQuote(c: char) {
    c == '"' || c == '\''
  }

  // ---------------------------------------------------------------------------
  // The scan

  /** What the regular expression matches at position `i` with capture `v`:
      `viewBox=`, a quote of either kind, one or more characters that are not
      quotes, and a quote of either kind (not necessarily the same one). */
  predicate IsMatch(s: string, i: nat, v: string) {
    && i + |Attribute| + |v| + 2 <= |s|
    && s[i..i + |Attribute|] == Attribute
    && IsQuote(s[i + |Attribute|])
    && v != [] && (forall k :: 0 <= k < |v| ==> !IsQuote(v[k]))
    && s[i + |Attribute| + 1..i + |Attribute| + 1 + |v|] == v
    && IsQuote(s[i + |Attribute| + 1 + |v|])
  }

  /** The matcher tried at position `i`. `[^"']+` is greedy: it takes the whole
      run of non-quote characters after the opening quote, and giving back
      characters cannot help, so the match succeeds exactly when that run is
      non-empty and a quote follows it. */
  function MatchAt(s: string, i: nat): Option<string> {
    var j := i + |Attribute|;
    if j < |s| && s[i..j] == Attribute && IsQuote(s[j]) then
      var body := s[j + 1..];
      var n := LeadingRun(body, NoneOf(Quotes));
      if 0 < n < |body| then Some(body[..n]) else None
    else None
  }

  /** A successful `match`: where it starts and the captured group. */
  datatype Found = Found(index: nat, capture: string)

  /** Tries the matcher at `i`, `i + 1`, ... and stops at the first success. */
  function SearchFrom(s: string, i: nat): Option<Found>
    decreases |s| - i
  {
    if i >= |s| then None
    else match MatchAt(s, i)
      case Some(v) => Some(Found(i, v))
      case None => SearchFrom(s, i + 1)
  }

  /** `s.match(/viewBox=["']([^"']+)["']/)` (the pattern has no `g` flag). */
  function Match(s: string): Option<Found> {
    SearchFrom(s, 0)
  }

  lemma {:induction false} QuoteClass(c: char)
    ensures InClass(NoneOf(Quotes), c) <==> !IsQuote(c)
  {
    assert Quotes == ['"', '\''];
  }

  /** The matcher at `i` captures `v` exactly when the regular expression matches
      there with that capture. */
  lemma {:induction false} MatchAtIff(s: string, i: nat, v: string)
    ensures MatchAt(s, i) == Some(v) <==> IsMatch(s, i, v)
  {
    var j := i + |Attribute|;
    if j < |s| && s[i..j] == Attribute && IsQuote(s[j]) {
      var body := s[j + 1..];
      var n := LeadingRun(body, NoneOf(Quotes));
      LeadingRunSpec(body, NoneOf(Quotes));
      if MatchAt(s, i) == Some(v) {
        assert v == body[..n];
        QuoteClass(body[n]);
        forall k | 0 <= k < |v| ensures !IsQuote(v[k]) {
          QuoteClass(v[k]);
        }
        assert s[j + 1..j + 1 + |v|] == v;
        assert s[j + 1 + |v|] == body[n];
      }
      if IsMatch(s, i, v) {
        assert body[..|v|] == v;
        forall k | 0 <= k < |v| ensures InClass(NoneOf(Quotes), body[..|v|][k]) {
          QuoteClass(v[k]);
        }
        assert body[|v|] == s[j + 1 + |v|];
        QuoteClass(body[|v|]);
        LeadingRunUnique(body, NoneOf(Quotes), |v|);
      }
    }
  }

  /** The search from `i` reports the first position at or after `i` where the
      matcher succeeds, or nothing when it succeeds nowhere after `i`. */
  lemma {:induction false} SearchFromSpec(s: string, i: nat)
    ensures SearchFrom(s, i).None? ==> forall j :: i <= j ==> MatchAt(s, j).None?
    ensures SearchFrom(s, i).Some? ==>
              var f := SearchFrom(s, i).value;
              && i <= f.index && MatchAt(s, f.index) == Some(f.capture)
              && forall j :: i <= j < f.index ==> MatchAt(s, j).None?
    decreases |s| - i
  {
    if i < |s| && MatchAt(s, i).None? {
      SearchFromSpec(s, i + 1);
    }
  }

  /** `match` returns no match exactly when the regular expression matches
      nowhere. */
  lemma {:induction false} MatchNoneIff(s: string)
    ensures Match(s).None? <==> forall j: nat, v: string :: !IsMatch(s, j, v)
  {
    SearchFromSpec(s, 0);
    forall j: nat, v: string ensures MatchAt(s, j) == Some(v) <==> IsMatch(s, j, v) {
      MatchAtIff(s, j, v);
    }
    if Match(s).Some? {
      var f := Match(s).value;
      assert IsMatch(s, f.index, f.capture);
    }
  }

  /** `match` returns the leftmost match: it reports position `i` and capture `v`
      exactly when the regular expression matches there with that capture and at
      no earlier position. */
  lemma {:induction false} MatchFirstIff(s: string, i: nat, v: string)
    ensures Match(s) == Some(Found(i, v)) <==>
              IsMatch(s, i, v) && forall j: nat, w: string :: j < i ==> !IsMatch(s, j, w)
  {
    SearchFromSpec(s, 0);
    if Match(s) == Some(Found(i, v)) {
      MatchAtIff(s, i, v);
      forall j: nat, w: string | j < i ensures !IsMatch(s, j, w) {
        MatchAtIff(s, j, w);
      }
    }
    if IsMatch(s, i, v) && forall j: nat, w: string :: j < i ==> !IsMatch(s, j, w) {
      MatchAtIff(s, i, v);
      var f := Match(s).value;
      MatchAtIff(s, f.index, f.capture);
    }
  }

  /** The captured value is never empty and holds no quote of either kind. */
  lemma {:induction false} CaptureShape(s: string)
    requires Match(s).Some?
    ensures Match(s).value.capture != []
    ensures forall k :: 0 <= k < |Match(s).value.capture| ==> !IsQuote(Match(s).value.capture[k])
  {
    var f := Match(s).value;
    MatchFirstIff(s, f.index, f.capture);
  }

  /** An attribute after text with no capital `B` in it is the one `match`
      finds, whichever quotes delimit it: an earlier match would need the `B` of
      `viewBox=` inside that text. */
  lemma {:induction false} MatchAfter(pre: string, open: char, v: string, close: char, post: string)
    requires 'B' !in pre
    requires IsQuote(open) && IsQuote(close)
    requires v != [] && forall k :: 0 <= k < |v| ==> !IsQuote(v[k])
    ensures Match(pre + Attribute + [open] + v + [close] + post) == Some(Found(|pre|, v))
  {
    var s := pre + Attribute + [open] + v + [close] + post;
    var i := |pre|;
    assert s[..i] == pre;
    assert s[i..i + |Attribute|] == Attribute;
    assert s[i + |Attribute|] == open;
    assert s[i + |Attribute| + 1..i + |Attribute| + 1 + |v|] == v;
    assert s[i + |Attribute| + 1 + |v|] == close;
    NoMatchBefore(s, i);
    MatchFirstIff(s, i, v);
  }

  /** No match starts before an occurrence of `viewBox=` that has no capital `B`
      ahead of it: a match needs the `B` of its own `viewBox=`. */
  lemma {:induction false} NoMatchBefore(s: string, i: nat)
    requires i + |Attribute| <= |s| && s[i..i + |Attribute|] == Attribute
    requires 'B' !in s[..i]
    ensures forall j: nat, w: string :: j < i ==> !IsMatch(s, j, w)
  {
    var pre := s[..i];
    forall j: nat, w: string | j < i ensures !IsMatch(s, j, w) {
      if j + 4 < i {
        assert s[j + 4] == pre[j + 4];
      } else {
        assert s[j + 4] == s[i..i + |Attribute|][j + 4 - i];
      }
    }
  }

  /** Text with no capital `B` in it holds no `viewBox` attribute. */
  lemma {:induction false} MatchNoB(s: string)
    requires 'B' !in s
    ensures Match(s).None?
  {
    forall j: nat, v: string ensures !IsMatch(s, j, v) {
      if j + 4 < |s| {
        assert s[j + 4] != 'B';
      }
    }
    MatchNoneIff(s);
  }

  predicate QuoteFree(s: string) {
    forall k :: 0 <= k < |s| ==> !IsQuote(s[k])
  }

  lemma {:induction false} QuoteFreeConcat(a: string, b: string)
    requires QuoteFree(a) && QuoteFree(b)
    ensures QuoteFree(a + b)
  {
    assert forall k :: |a| <= k < |a + b| ==> (a + b)[k] == b[k - |a|];
  }

  // ---------------------------------------------------------------------------
  // The split

  /** The separator `split` is given. The source writes `/\\s+/`, which matches
      a backslash followed by one or more `s`; `/\s+/` matches a run of white
      space. */
  datatype Separator = BackslashS | Whitespace

  /** A character at which the separator can start to match. */
  predicate StartsSeparator(sep: Separator, c: char) {
    match sep
    case BackslashS => c == '\\'
    case Whitespace => IsJsSpace(c)
  }

  /** A character that lengthens a separator match it follows. */
  predicate ExtendsSeparator(sep: Separator, c: char) {
    match sep
    case BackslashS => c == 's'
    case Whitespace => IsJsSpace(c)
  }

  /** The shortest text the separator matches. */
  function Token(sep: Separator): string {
    match sep
    case BackslashS => "\\s"
    case Whitespace => " "
  }

  /** The length of the (greedy) separator match at position `q`, 0 when it
      does not match there. */
  function SeparatorAt(sep: Separator, s: string, q: nat): (m: nat)
    requires q < |s|
    ensures q + m <= |s|
    ensures m > 0 ==> StartsSeparator(sep, s[q])
  {
    match sep
    case BackslashS =>
      if s[q] == '\\' then
        var r := LeadingRun(s[q + 1..], Only('s'));
        if r == 0 then 0 else 1 + r
      else 0
    case Whitespace => LeadingRun(s[q..], Space)
  }

  /** The loop of `RegExp.prototype[Symbol.split]`: `p` is where the current
      field starts and `q` where the separator is tried next; a match ends the
      field and the next field starts after it. */
  function SplitFrom(s: string, sep: Separator, p: nat, q: nat): seq<string>
    requires p <= q <= |s|
    decreases |s| - q
  {
    if q == |s| then [s[p..]]
    else
      var m := SeparatorAt(sep, s, q);
      if m == 0 then SplitFrom(s, sep, p, q + 1)
      else [s[p..q]] + SplitFrom(s, sep, q + m, q + m)
  }

  /** `s.split(separator)`. */
  function Split(s: string, sep: Separator): seq<string> {
    SplitFrom(s, sep, 0, 0)
  }

  /** Fields joined by the separator's token. */
  function Join(fields: seq<string>, token: string): string
    requires |fields| >= 1
    decreases |fields|
  {
    if |fields| == 1 then fields[0] else fields[0] + token + Join(fields[1..], token)
  }

  /** A field that the separator cannot cut or run into: non-empty, with no
      character that starts a separator, and not starting with one that would
      lengthen the separator before it. */
  predicate Plain(sep: Separator, f: string) {
    f != [] && !ExtendsSeparator(sep, f[0])
    && forall k :: 0 <= k < |f| ==> !StartsSeparator(sep, f[k])
  }

  /** Positions where the separator cannot start are skipped. */
  lemma {:induction false} SkipPlain(s: string, sep: Separator, p: nat, q: nat, k: nat)
    requires p <= q <= k <= |s|
    requires forall x :: q <= x < k ==> !StartsSeparator(sep, s[x])
    ensures SplitFrom(s, sep, p, q) == SplitFrom(s, sep, p, k)
    decreases k - q
  {
    if q < k {
      SkipPlain(s, sep, p, q + 1, k);
    }
  }

  /** The token, not followed by a character that lengthens it, is one whole
      separator match. */
  lemma {:induction false} TokenMatch(sep: Separator, s: string, q: nat)
    requires q + |Token(sep)| <= |s| && s[q..q + |Token(sep)|] == Token(sep)
    requires q + |Token(sep)| == |s| || !ExtendsSeparator(sep, s[q + |Token(sep)|])
    ensures SeparatorAt(sep, s, q) == |Token(sep)|
  {
    assert s[q] == s[q..q + |Token(sep)|][0];
    match sep
    case BackslashS =>
      assert s[q + 1] == s[q..q + |Token(sep)|][1];
      LeadingRunUnique(s[q + 1..], Only('s'), 1);
    case Whitespace =>
      LeadingRunUnique(s[q..], Space, 1);
  }

  /** A plain field at `p` is passed over up to its end. */
  lemma {:induction false} SkipField(s: string, sep: Separator, p: nat, f: string)
    requires Plain(sep, f) && p + |f| <= |s| && s[p..p + |f|] == f
    ensures SplitFrom(s, sep, p, p) == SplitFrom(s, sep, p, p + |f|)
  {
    forall x | p <= x < p + |f| ensures !StartsSeparator(sep, s[x]) {
      assert s[x] == f[x - p];
    }
    SkipPlain(s, sep, p, p, p + |f|);
  }

  /** A plain field followed by a whole token is cut after the token. */
  lemma {:induction false} FieldThenToken(s: string, sep: Separator, p: nat, f: string)
    requires Plain(sep, f) && p + |f| + |Token(sep)| <= |s|
    requires s[p..p + |f|] == f && s[p + |f|..p + |f| + |Token(sep)|] == Token(sep)
    requires p + |f| + |Token(sep)| == |s| || !ExtendsSeparator(sep, s[p + |f| + |Token(sep)|])
    ensures SplitFrom(s, sep, p, p) == [f] + SplitFrom(s, sep, p + |f| + |Token(sep)|, p + |f| + |Token(sep)|)
  {
    SkipField(s, sep, p, f);
    TokenMatch(sep, s, p + |f|);
  }

  /** Where a suffix of `s` is `f + d + rest`, the three pieces are slices of `s`. */
  lemma {:induction false} Pieces(s: string, p: nat, f: string, d: string, rest: string)
    requires p <= |s| && s[p..] == f + d + rest
    ensures p + |f| + |d| <= |s|
    ensures s[p..p + |f|] == f && s[p + |f|..p + |f| + |d|] == d
    ensures s[p + |f| + |d|..] == rest
  {
    var t := s[p..];
    var a, b, c := s[p..p + |f|], s[p + |f|..p + |f| + |d|], s[p + |f| + |d|..];
    assert forall i :: 0 <= i < |f| ==> a[i] == t[i];
    assert forall i :: 0 <= i < |d| ==> b[i] == t[|f| + i];
    assert forall i :: 0 <= i < |rest| ==> c[i] == t[|f| + |d| + i];
  }

  /** Joining two or more fields puts the token after the first one. */
  lemma {:induction false} JoinCons(fields: seq<string>, d: string)
    requires |fields| >= 2 && fields[1] != []
    ensures Join(fields, d) == fields[0] + d + Join(fields[1..], d)
    ensures Join(fields[1..], d) != [] && Join(fields[1..], d)[0] == fields[1][0]
  {
    if |fields| > 2 {
      assert Join(fields[1..], d) == fields[1] + (d + Join(fields[2..], d));
    }
  }

  /** The first of two or more plain fields joined by the token is cut off
      together with the token that follows it. */
  lemma {:induction false} SplitJoinStep(s: string, sep: Separator, p: nat, fields: seq<string>)
    requires |fields| >= 2 && Plain(sep, fields[0]) && Plain(sep, fields[1])
    requires p <= |s| && s[p..] == Join(fields, Token(sep))
    ensures p + |fields[0]| + |Token(sep)| <= |s|
    ensures s[p + |fields[0]| + |Token(sep)|..] == Join(fields[1..], Token(sep))
    ensures SplitFrom(s, sep, p, p)
              == [fields[0]] + SplitFrom(s, sep, p + |fields[0]| + |Token(sep)|, p + |fields[0]| + |Token(sep)|)
  {
    var f, d := fields[0], Token(sep);
    JoinCons(fields, d);
    var rest := Join(fields[1..], d);
    Pieces(s, p, f, d, rest);
    var n := p + |f| + |d|;
    assert s[n] == s[n..][0] == rest[0];
    FieldThenToken(s, sep, p, f);
  }

  lemma {:induction false} SplitJoinFrom(s: string, sep: Separator, p: nat, fields: seq<string>)
    requires |fields| >= 1 && forall i :: 0 <= i < |fields| ==> Plain(sep, fields[i])
    requires p <= |s| && s[p..] == Join(fields, Token(sep))
    ensures SplitFrom(s, sep, p, p) == fields
    decreases |fields|
  {
    var f := fields[0];
    if |fields| == 1 {
      Pieces(s, p, f, [], []);
      SkipField(s, sep, p, f);
      assert s[p..] == s[p..p + |f|];
    } else {
      assert Plain(sep, fields[1]);
      SplitJoinStep(s, sep, p, fields);
      var n := p + |f| + |Token(sep)|;
      SplitJoinFrom(s, sep, n, fields[1..]);
    }
  }

  /** Splitting fields joined by the separator's token gives back the fields. */
  lemma {:induction false} SplitJoin(fields: seq<string>, sep: Separator)
    requires |fields| >= 1 && forall i :: 0 <= i < |fields| ==> Plain(sep, fields[i])
    ensures Split(Join(fields, Token(sep)), sep) == fields
  {
    var s := Join(fields, Token(sep));
    assert s[0..] == s;
    SplitJoinFrom(s, sep, 0, fields);
  }

  /** A value in which the separator can start nowhere is one field. */
  lemma {:induction false} SplitWhole(s: string, sep: Separator)
    requires forall k :: 0 <= k < |s| ==> !StartsSeparator(sep, s[k])
    ensures Split(s, sep) == [s]
  {
    SkipPlain(s, sep, 0, 0, |s|);
    assert s[0..] == s;
  }

  // ---------------------------------------------------------------------------
  // The two fields

  /** Which separator the value is split on and which fields are taken as the
      width and the height. */
  datatype Reading = Reading(separator: Separator, widthField: nat, heightField: nat)

  /** Line 168 as written: `split(/\\s+/)`, and `[, , , vbWidth, vbHeight]`
      skips three elements, so the width is field 3 and the height field 4. */
  const AsWritten: Reading := Reading(BackslashS, 3, 4)

  /** The reading the comment and the SVG viewBox grammar call for: split on
      white space, width field 2, height field 3. */
  const Intended: Reading := Reading(Whitespace, 2, 3)

  /** An array element, or `undefined` past the end, as the string `parseFloat`
      converts it to. */
  function Field(fields: seq<string>, i: nat): string {
    if i < |fields| then fields[i] else Undefined
  }

  /** `width = parseFloat(vbWidth); height = parseFloat(vbHeight)`. */
  function ViewBoxSize(value: string, reading: Reading): (Number, Number) {
    var fields := Split(value, reading.separator);
    (ParseFloat(Field(fields, reading.widthField)), ParseFloat(Field(fields, reading.heightField)))
  }

  /** The four fields of a viewBox value, width and height as numerals. */
  function Fields(minX: string, minY: string, width: nat, height: nat): seq<string> {
    [minX, minY, NatToString(width), NatToString(height)]
  }

  lemma {:induction false} NumeralPlain(n: nat, sep: Separator)
    ensures Plain(sep, NatToString(n))
  {
    NatToStringDigits(n);
    var s := NatToString(n);
    assert forall k :: 0 <= k < |s| ==> IsDigit(s[k]);
  }

  /** A viewBox value written out from its four fields holds no quote when its
      first two fields hold none, so the scan can capture it whole. */
  lemma {:induction false} ValueQuoteFree(minX: string, minY: string, width: nat, height: nat, sep: Separator)
    requires QuoteFree(minX) && QuoteFree(minY)
    ensures var v := Join(Fields(minX, minY, width, height), Token(sep));
      v != [] && QuoteFree(v)
  {
    var d := Token(sep);
    assert QuoteFree(d);
    var w, h := NatToString(width), NatToString(height);
    NatToStringDigits(width);
    NatToStringDigits(height);
    var fs := Fields(minX, minY, width, height);
    assert Join(fs[3..], d) == h;
    assert Join(fs[2..], d) == w + d + h;
    assert Join(fs[1..], d) == minY + d + (w + d + h);
    assert Join(fs, d) == minX + d + (minY + d + (w + d + h));
    QuoteFreeConcat(w, d);
    QuoteFreeConcat(w + d, h);
    QuoteFreeConcat(minY, d);
    QuoteFreeConcat(minY + d, w + d + h);
    QuoteFreeConcat(minX, d);
    QuoteFreeConcat(minX + d, minY + d + (w + d + h));
  }

  /** As written, a value with no backslash is a single field, so both fields
      are `undefined` and both sizes `NaN`: `"0 0 100 50"` gives no size. */
  lemma {:induction false} AsWrittenPlainValue(value: string)
    requires forall k :: 0 <= k < |value| ==> value[k] != '\\'
    ensures ViewBoxSize(value, AsWritten) == (NaN, NaN)
  {
    SplitWhole(value, BackslashS);
    ParseUndefined();
  }

  /** As written, a value whose fields are separated by a backslash and `s`
      splits into its four fields, and then field 3, the height, is read as the
      width and the missing field 4 as the height. */
  lemma {:induction false} AsWrittenBackslashValue(minX: string, minY: string, width: nat, height: nat)
    requires Plain(BackslashS, minX) && Plain(BackslashS, minY)
    ensures ViewBoxSize(Join(Fields(minX, minY, width, height), "\\s"), AsWritten)
              == (Finite(height as real), NaN)
  {
    NumeralPlain(width, BackslashS);
    NumeralPlain(height, BackslashS);
    SplitJoin(Fields(minX, minY, width, height), BackslashS);
    ParseNatToString(height);
    ParseUndefined();
  }

  /** With only the separator corrected, `"0 0 100 50"` still gives the height
      as the width and `NaN` as the height. */
  lemma {:induction false} SeparatorFixAlone(minX: string, minY: string, width: nat, height: nat)
    requires Plain(Whitespace, minX) && Plain(Whitespace, minY)
    ensures ViewBoxSize(Join(Fields(minX, minY, width, height), " "), Reading(Whitespace, 3, 4))
              == (Finite(height as real), NaN)
  {
    NumeralPlain(width, Whitespace);
    NumeralPlain(height, Whitespace);
    SplitJoin(Fields(minX, minY, width, height), Whitespace);
    ParseNatToString(height);
    ParseUndefined();
  }

  /** Corrected, a value `min-x min-y width height` gives its width and height. */
  lemma {:induction false} IntendedValue(minX: string, minY: string, width: nat, height: nat)
    requires Plain(Whitespace, minX) && Plain(Whitespace, minY)
    ensures ViewBoxSize(Join(Fields(minX, minY, width, height), " "), Intended)
              == (Finite(width as real), Finite(height as real))
  {
    NumeralPlain(width, Whitespace);
    NumeralPlain(height, Whitespace);
    SplitJoin(Fields(minX, minY, width, height), Whitespace);
    ParseNatToString(width);
    ParseNatToString(height);
  }
}
