/** The download filename built by `generateFilename`: a slug of the artifact's
    title, the date and the quality label, as `<slug>-<date>-<quality>.png`. The
    title element's text and the date are parameters. */
module Filename {
  import opened Wrappers
  import opened Text

  /** The title used when the page has none, or only whitespace. */
  const DefaultTitle: string := "svg-export"

  /** The slug keeps at most this many characters (`slice(0, 50)`). */
  const MaxSlugLength: nat := 50

  /** `titleElement?.textContent?.trim() || 'svg-export'`: the trimmed text, or
      the default when there is no text or it trims to the empty string. */
  function EffectiveTitle(title: Option<string>): string {
    if title.Some? && Trim(title.value) != [] then Trim(title.value) else DefaultTitle
  }

  /** The letters and digits of `s`, in order. */
  function Alnums(s: string): string {
    Without(s, NonSlug)
  }

  /** `s` with every hyphen deleted. */
  function RemoveHyphens(s: string): string {
    Without(s, Only('-'))
  }

  predicate InSlugAlphabet(s: string) {
    forall i :: 0 <= i < |s| ==> IsSlugChar(s[i]) || s[i] == '-'
  }

  predicate NoDoubleHyphen(s: string) {
    forall i :: 0 <= i < |s| - 1 ==> !(s[i] == '-' && s[i + 1] == '-')
  }

  /** `replace(/[^a-z0-9]+/g, '-')`: every maximal run of characters outside
      `[a-z0-9]` becomes one hyphen. */
  function Collapse(s: string): string
    decreases |s|
  {
    if s == [] then []
    else
      var n := LeadingRun(s, NonSlug);
      if n == 0 then [s[0]] + Collapse(s[1..]) else ['-'] + Collapse(s[n..])
  }

  /** `replace(/^-+|-+$/g, '')`: the leading and the trailing run of hyphens go. */
  function Strip(s: string): string {
    TrimEnd(TrimStart(s, Only('-')), Only('-'))
  }

  /** A text after lower-casing, collapsing and stripping. */
  function CleanText(t: string): string {
    Strip(Collapse(Lower(t)))
  }

  /** The title after lower-casing, collapsing and stripping, before truncation. */
  function Cleaned(title: Option<string>): string {
    CleanText(EffectiveTitle(title))
  }

  /** `slice(0, 50)`: the first 50 characters, or all of a shorter string. */
  function Truncate(c: string): string {
    if |c| <= MaxSlugLength then c else c[..MaxSlugLength]
  }

  /** `cleanTitle`: the cleaned title cut to its first 50 characters. */
  function Slug(title: Option<string>): string {
    Truncate(Cleaned(title))
  }

  /** The template literal `${cleanTitle}-${timestamp}-${currentQuality}.png`. */
  function Assemble(slug: string, date: string, quality: string): (r: string)
    ensures |r| == |slug| + |date| + |quality| + 6
    ensures r[..|slug|] == slug && r[|slug|] == '-'
    ensures r[|slug| + 1..|slug| + 1 + |date|] == date && r[|slug| + 1 + |date|] == '-'
    ensures r[|slug| + 2 + |date|..|r| - 4] == quality && r[|r| - 4..] == ".png"
  {
    slug + "-" + date + "-" + quality + ".png"
  }

  /** `generateFilename()`, with the title text, today's date and the current
      quality label as parameters. */
  function Filename(title: Option<string>, date: string, quality: string): string {
    Assemble(Slug(title), date, quality)
  }

  // ---------------------------------------------------------------------------
  // Collapsing non-alphanumeric runs

  /** The collapsed string is empty only for the empty string, and starts with a
      hyphen exactly when the input starts outside `[a-z0-9]`. */
  lemma {:induction false} CollapseHead(s: string)
    ensures Collapse(s) == [] <==> s == []
    ensures Collapse(s) != [] && Collapse(s)[0] == '-' <==> s != [] && !IsSlugChar(s[0])
    ensures s != [] && IsSlugChar(s[0]) ==> Collapse(s)[0] == s[0]
  {
  }

  /** The collapsed string uses only `a`-`z`, `0`-`9` and `-`. */
  lemma {:induction false} CollapseAlphabet(s: string)
    ensures InSlugAlphabet(Collapse(s))
    decreases |s|
  {
    if s != [] {
      var n := LeadingRun(s, NonSlug);
      if n == 0 {
        CollapseAlphabet(s[1..]);
      } else {
        CollapseAlphabet(s[n..]);
      }
    }
  }

  /** The collapsed string never holds two hyphens in a row: a run has become one
      hyphen, and what follows a run starts with a letter or digit. */
  lemma {:induction false} CollapseNoDoubleHyphen(s: string)
    ensures NoDoubleHyphen(Collapse(s))
    decreases |s|
  {
    if s != [] {
      var n := LeadingRun(s, NonSlug);
      if n == 0 {
        CollapseNoDoubleHyphen(s[1..]);
      } else {
        LeadingRunSpec(s, NonSlug);
        CollapseNoDoubleHyphen(s[n..]);
        CollapseHead(s[n..]);
      }
    }
  }

  /** Deleting the hyphens of the collapsed string gives back exactly the letters
      and digits of the input, in order. */
  lemma {:induction false} CollapseKeepsAlnums(s: string)
    ensures RemoveHyphens(Collapse(s)) == Alnums(s)
    decreases |s|
  {
    if s != [] {
      var n := LeadingRun(s, NonSlug);
      if n == 0 {
        CollapseKeepsAlnums(s[1..]);
        assert RemoveHyphens(Collapse(s)) == [s[0]] + RemoveHyphens(Collapse(s[1..]));
      } else {
        CollapseKeepsAlnums(s[n..]);
        LeadingRunSpec(s, NonSlug);
        assert s == s[..n] + s[n..];
        WithoutConcat(s[..n], s[n..], NonSlug);
        WithoutAllIn(s[..n], NonSlug);
        assert RemoveHyphens(Collapse(s)) == RemoveHyphens(Collapse(s[n..]));
      }
    }
  }

  /** A leading part made only of letters and digits passes through unchanged. */
  lemma {:induction false} CollapseSlugPrefix(a: string, b: string)
    requires forall i :: 0 <= i < |a| ==> IsSlugChar(a[i])
    ensures Collapse(a + b) == a + Collapse(b)
    decreases |a|
  {
    if a != [] {
      assert (a + b)[0] == a[0];
      assert (a + b)[1..] == a[1..] + b;
      CollapseSlugPrefix(a[1..], b);
      assert a == [a[0]] + a[1..];
    } else {
      assert a + b == b;
    }
  }

  /** Collapsing is idempotent: a string over the slug alphabet without two
      hyphens in a row is its own collapsed form. */
  lemma {:induction false} CollapseFixed(s: string)
    requires InSlugAlphabet(s) && NoDoubleHyphen(s)
    ensures Collapse(s) == s
    decreases |s|
  {
    if s != [] {
      var n := LeadingRun(s, NonSlug);
      if n == 0 {
        CollapseFixed(s[1..]);
        assert s == [s[0]] + s[1..];
      } else {
        assert s[0] == '-';
        assert n == 1 by {
          assert |s| > 1 ==> IsSlugChar(s[1]);
          LeadingRunUnique(s, NonSlug, 1);
        }
        CollapseFixed(s[1..]);
        assert s == [s[0]] + s[1..];
      }
    }
  }

  // ---------------------------------------------------------------------------
  // Stripping and truncating

  /** Any slice of a string over the slug alphabet without double hyphens is one too. */
  lemma {:induction false} SliceShape(s: string, p: nat, q: nat)
    requires p <= q <= |s| && InSlugAlphabet(s) && NoDoubleHyphen(s)
    ensures InSlugAlphabet(s[p..q]) && NoDoubleHyphen(s[p..q])
  {
    var t := s[p..q];
    assert forall i :: 0 <= i < |t| ==> t[i] == s[p + i];
  }

  /** Stripping keeps the alphabet and the absence of double hyphens, removes
      hyphens at both ends, and deletes no letter or digit. */
  lemma {:induction false} StripShape(s: string)
    requires InSlugAlphabet(s) && NoDoubleHyphen(s)
    ensures InSlugAlphabet(Strip(s)) && NoDoubleHyphen(Strip(s))
    ensures Strip(s) == [] || (Strip(s)[0] != '-' && Strip(s)[|Strip(s)| - 1] != '-')
    ensures RemoveHyphens(Strip(s)) == RemoveHyphens(s)
  {
    var p, q := TrimBothSlice(s, Only('-'));
    SliceShape(s, p, q);
    StripKeepsLetters(s, p, q);
  }

  /** Cutting runs of hyphens off both ends deletes no letter or digit. */
  lemma {:induction false} StripKeepsLetters(s: string, p: nat, q: nat)
    requires p <= q <= |s| && AllIn(Only('-'), s[..p]) && AllIn(Only('-'), s[q..])
    ensures RemoveHyphens(s[p..q]) == RemoveHyphens(s)
  {
    var t := s[p..q];
    assert s == s[..p] + (t + s[q..]);
    WithoutConcat(s[..p], t + s[q..], Only('-'));
    WithoutConcat(t, s[q..], Only('-'));
    WithoutAllIn(s[..p], Only('-'));
    WithoutAllIn(s[q..], Only('-'));
  }

  /** `c` is over the slug alphabet, has no double hyphen, neither starts nor
      ends with a hyphen, and holds the letters and digits of `t` lower-cased. */
  predicate CleanOf(c: string, t: string) {
    && InSlugAlphabet(c) && NoDoubleHyphen(c)
    && (c == [] || (c[0] != '-' && c[|c| - 1] != '-'))
    && RemoveHyphens(c) == Alnums(Lower(t))
  }

  /** Lower-casing, collapsing and stripping any text gives a clean string
      holding the text's letters and digits. */
  lemma {:induction false} CleanTextShape(t: string)
    ensures CleanOf(CleanText(t), t)
  {
    var l := Lower(t);
    CollapseAlphabet(l);
    CollapseNoDoubleHyphen(l);
    CollapseKeepsAlnums(l);
    StripShape(Collapse(l));
  }

  /** The cleaned title is clean and holds the letters and digits of the title
      in effect, lower-cased. */
  lemma {:induction false} CleanedShape(title: Option<string>)
    ensures CleanOf(Cleaned(title), EffectiveTitle(title))
  {
    CleanTextShape(EffectiveTitle(title));
  }

  /** The slug is the cleaned title when that fits in 50 characters, and its
      first 50 characters otherwise. */
  lemma {:induction false} SlugIsPrefix(title: Option<string>)
    ensures var c, s := Cleaned(title), Slug(title);
      && s <= c && |s| <= MaxSlugLength
      && (|c| <= MaxSlugLength ==> s == c)
      && (|c| > MaxSlugLength ==> |s| == MaxSlugLength)
  {
  }

  // ---------------------------------------------------------------------------
  // Properties of the slug

  /** Truncating keeps the slug alphabet and the absence of double hyphens. */
  lemma {:induction false} TruncateShape(c: string)
    requires InSlugAlphabet(c) && NoDoubleHyphen(c)
    ensures InSlugAlphabet(Truncate(c)) && NoDoubleHyphen(Truncate(c))
  {
    var s := Truncate(c);
    assert s == c[0..|s|];
    SliceShape(c, 0, |s|);
  }

  /** Deleting the hyphens of a truncated string leaves a prefix of what deleting
      them from the whole string leaves, and all of it when nothing was cut. */
  lemma {:induction false} TruncateKeeps(c: string)
    ensures RemoveHyphens(Truncate(c)) <= RemoveHyphens(c)
    ensures |c| <= MaxSlugLength ==> RemoveHyphens(Truncate(c)) == RemoveHyphens(c)
  {
    var s := Truncate(c);
    assert c == s + c[|s|..];
    WithoutConcat(s, c[|s|..], Only('-'));
  }

  /** Truncating a string that neither starts nor ends with a hyphen leaves at
      most 50 characters, no leading hyphen, and the whole string when it fits. */
  lemma {:induction false} TruncateEnds(c: string)
    requires c == [] || (c[0] != '-' && c[|c| - 1] != '-')
    ensures |Truncate(c)| <= MaxSlugLength
    ensures Truncate(c) == [] || Truncate(c)[0] != '-'
    ensures |c| <= MaxSlugLength ==> Truncate(c) == c
  {
  }

  /** The truncated cleaned form of any text keeps the slug alphabet and has no
      double hyphen. */
  lemma {:induction false} TextSlugShape(t: string)
    ensures InSlugAlphabet(Truncate(CleanText(t))) && NoDoubleHyphen(Truncate(CleanText(t)))
  {
    CleanTextShape(t);
    TruncateShape(CleanText(t));
  }

  /** The truncated cleaned form of any text is at most 50 long, does not start
      with a hyphen, and ends with one only when it was cut. */
  lemma {:induction false} TextSlugEnds(t: string)
    ensures var s := Truncate(CleanText(t));
      && |s| <= MaxSlugLength && (s == [] || s[0] != '-')
      && (|CleanText(t)| <= MaxSlugLength ==> s == [] || s[|s| - 1] != '-')
  {
    CleanTextShape(t);
    TruncateEnds(CleanText(t));
  }

  /** The truncated cleaned form of any text holds a prefix of the text's letters
      and digits, and all of them when the cleaned text fits in 50. */
  lemma {:induction false} TextSlugKeeps(t: string)
    ensures var s := Truncate(CleanText(t));
      && RemoveHyphens(s) <= Alnums(Lower(t))
      && (|CleanText(t)| <= MaxSlugLength ==> RemoveHyphens(s) == Alnums(Lower(t)))
  {
    CleanTextShape(t);
    TruncateKeeps(CleanText(t));
  }

  /** The slug uses only `a`-`z`, `0`-`9` and `-`, and never two hyphens in a row. */
  lemma {:induction false} SlugShape(title: Option<string>)
    ensures InSlugAlphabet(Slug(title))
    ensures NoDoubleHyphen(Slug(title))
  {
    TextSlugShape(EffectiveTitle(title));
  }

  /** The slug is at most 50 characters, never starts with a hyphen, and ends
      with one only when truncation cut it. */
  lemma {:induction false} SlugEnds(title: Option<string>)
    ensures |Slug(title)| <= MaxSlugLength
    ensures Slug(title) == [] || Slug(title)[0] != '-'
    ensures |Cleaned(title)| <= MaxSlugLength ==>
              Slug(title) == [] || Slug(title)[|Slug(title)| - 1] != '-'
  {
    TextSlugEnds(EffectiveTitle(title));
  }

  /** Deleting the hyphens of the slug leaves a prefix of the letters and digits
      of the lower-cased title, and all of them when nothing was cut off. */
  lemma {:induction false} SlugKeepsAlnums(title: Option<string>)
    ensures RemoveHyphens(Slug(title)) <= Alnums(Lower(EffectiveTitle(title)))
    ensures |Cleaned(title)| <= MaxSlugLength ==>
              RemoveHyphens(Slug(title)) == Alnums(Lower(EffectiveTitle(title)))
  {
    TextSlugKeeps(EffectiveTitle(title));
  }

  /** `svg-export` is already clean: lower-case, collapsed and stripped. */
  lemma {:induction false} DefaultTitleClean()
    ensures CleanText(DefaultTitle) == DefaultTitle
  {
    var d := DefaultTitle;
    assert InSlugAlphabet(d) && NoDoubleHyphen(d) by {
      assert forall i :: 0 <= i < |d| ==> d[i] in "svgexport-";
    }
    LowerNoUpper(d);
    CollapseFixed(d);
    TrimBothNoOp(d, Only('-'));
  }

  /** With no title, or one that is only whitespace, the slug is `svg-export`. */
  lemma {:induction false} MissingTitleSlug(title: Option<string>)
    requires title.None? || AllIn(Space, title.value)
    ensures EffectiveTitle(title) == DefaultTitle
    ensures Slug(title) == DefaultTitle
  {
    if title.Some? {
      TrimEmptyIff(title.value);
    }
    DefaultTitleClean();
  }

  /** A clean string is empty exactly when the text it came from has no letter
      or digit. */
  lemma {:induction false} CleanEmptyIff(c: string, t: string)
    requires CleanOf(c, t)
    ensures c == [] <==> Alnums(Lower(t)) == []
  {
    if c != [] {
      // The first character is a letter or a digit, so it survives.
      assert c == [c[0]] + c[1..];
      WithoutConcat([c[0]], c[1..], Only('-'));
      assert RemoveHyphens(c)[0] == c[0];
    }
  }

  /** A truncated cleaned text is empty exactly when the text has no letter or
      digit. */
  lemma {:induction false} CleanTextEmptyIff(t: string)
    ensures Truncate(CleanText(t)) == [] <==> Alnums(Lower(t)) == []
  {
    CleanTextShape(t);
    CleanEmptyIff(CleanText(t), t);
  }

  /** The slug is empty exactly when the lower-cased title has no letter or
      digit; the filename then starts with a hyphen. */
  lemma {:induction false} EmptySlugIff(title: Option<string>, date: string, quality: string)
    ensures Slug(title) == [] <==> Alnums(Lower(EffectiveTitle(title))) == []
    ensures Slug(title) == [] ==> Filename(title, date, quality)[0] == '-'
  {
    CleanTextEmptyIff(EffectiveTitle(title));
  }

  /** A title of 49 letters and digits, a space and more letters and digits is
      cut right after the hyphen the space became. */
  lemma {:induction false} TruncationLeavesHyphen(a: string, b: string)
    requires |a| == MaxSlugLength - 1 && b != []
    requires forall i :: 0 <= i < |a| ==> IsSlugChar(a[i])
    requires forall i :: 0 <= i < |b| ==> IsSlugChar(b[i])
    ensures Slug(Some(a + " " + b)) == a + "-"
  {
    var t := a + " " + b;
    assert t[0] == a[0] && t[|t| - 1] == b[|b| - 1];
    assert forall i :: 0 <= i < |t| ==> !IsUpper(t[i]) by {
      assert forall i :: 0 <= i < |t| ==> t[i] == ' ' || IsSlugChar(t[i]);
    }
    var c := a + "-" + b;
    assert Collapse(t) == c by {
      CollapseOneSpace(a, b);
    }
    TitleAsIs(t);
    TrimBothNoOp(c, Only('-'));
    assert Cleaned(Some(t)) == c;
    assert c[..MaxSlugLength] == a + "-";
  }

  /** A title without upper-case letters that starts and ends with a letter or
      digit is used as it is. */
  lemma {:induction false} TitleAsIs(t: string)
    requires t != [] && IsSlugChar(t[0]) && IsSlugChar(t[|t| - 1])
    requires forall i :: 0 <= i < |t| ==> !IsUpper(t[i])
    ensures EffectiveTitle(Some(t)) == t && Lower(t) == t
  {
    TrimBothNoOp(t, Space);
    LowerNoUpper(t);
  }

  /** One space between two runs of letters and digits becomes one hyphen. */
  lemma {:induction false} CollapseOneSpace(a: string, b: string)
    requires forall i :: 0 <= i < |a| ==> IsSlugChar(a[i])
    requires forall i :: 0 <= i < |b| ==> IsSlugChar(b[i])
    ensures Collapse(a + " " + b) == a + "-" + b
  {
    assert a + " " + b == a + (" " + b);
    CollapseSlugPrefix(a, " " + b);
    assert Collapse(" " + b) == "-" + Collapse(b) by {
      LeadingRunUnique(" " + b, NonSlug, 1);
      assert (" " + b)[1..] == b;
    }
    assert Collapse(b) == b by {
      CollapseSlugPrefix(b, []);
      assert b + [] == b;
    }
  }

  /** A clean string, over the slug alphabet without double hyphens, starting
      and ending with a letter or digit and at most 50 long, is its own slug. */
  lemma {:induction false} SlugOfClean(s: string)
    requires s != [] && |s| <= MaxSlugLength && InSlugAlphabet(s) && NoDoubleHyphen(s)
    requires s[0] != '-' && s[|s| - 1] != '-'
    ensures Slug(Some(s)) == s
  {
    assert forall i :: 0 <= i < |s| ==> !IsUpper(s[i]);
    TitleAsIs(s);
    CollapseFixed(s);
    TrimBothNoOp(s, Only('-'));
  }

  /** A slug that did not need truncating is a fixed point: using it as the
      title gives it back. */
  lemma {:induction false} SlugIdempotent(title: Option<string>)
    requires Slug(title) != [] && |Cleaned(title)| <= MaxSlugLength
    ensures Slug(Some(Slug(title))) == Slug(title)
  {
    var c := Cleaned(title);
    CleanedShape(title);
    TruncateEnds(c);
    SlugOfClean(c);
  }

  // ---------------------------------------------------------------------------
  // Properties of the filename

  /** With a ten-character date and a two-character quality label, the filename
      gives back the slug, the date and the label it was built from. */
  lemma {:induction false} FilenameDecodes(s1: string, d1: string, l1: string,
                        s2: string, d2: string, l2: string)
    requires |d1| == 10 && |d2| == 10 && |l1| == 2 && |l2| == 2
    requires Assemble(s1, d1, l1) == Assemble(s2, d2, l2)
    ensures s1 == s2 && d1 == d2 && l1 == l2
  {
    var f := Assemble(s1, d1, l1);
    assert |s1| == |s2|;
  }
}
