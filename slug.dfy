/** The topic slug normaliser. The same seven-step chain appears three times in
    the repository (the browser's `normalizeTopicSlug`, the file-backed server's
    `normalizeSlug` and the key-value store's `normalizeSlug`), character for
    character, so it is modelled once here and used by all three stores. */
module Slug {
  import opened Text

  const MaxSlugLength: nat := 48

  predicate IsAlnum(c: char) { 'a' <= c <= 'z' || '0' <= c <= '9' }

  predicate IsSlugChar(c: char) { IsAlnum(c) || c == '-' }

  /** The Combining Diacritical Marks block that the normaliser deletes. */
  predicate IsCombiningMark(c: char) { '\U{0300}' <= c <= '\U{036F}' }

  function LowerAscii(c: char): (d: char)
    ensures !('A' <= d <= 'Z')
    ensures IsAlnum(d) <==> IsAlnum(c) || 'A' <= c <= 'Z'
  {
    if 'A' <= c <= 'Z' then (c as int + 32) as char else c
  }

  predicate AllSlugChars(s: string) {
    forall k :: 0 <= k < |s| ==> IsSlugChar(s[k])
  }

  predicate NoDoubleHyphen(s: string) {
    forall k :: 0 < k < |s| ==> !(s[k - 1] == '-' && s[k] == '-')
  }

  /** The letters and digits of `s`, in order. */
  function Alnums(s: string): (r: string)
    ensures |r| <= |s|
  {
    if s == [] then [] else (if IsAlnum(s[0]) then [s[0]] else []) + Alnums(s[1..])
  }

  /** A character that folding leaves as it is: no combining mark, no ASCII capital. */
  predicate IsFolded(c: char) { !IsCombiningMark(c) && !('A' <= c <= 'Z') }

  /** Steps 2-4 of the chain on text that is already in decomposed form: the
      combining marks U+0300..U+036F are deleted and ASCII capitals become
      small letters. */
  function Fold(s: string): (r: string)
    ensures forall k :: 0 <= k < |r| ==> IsFolded(r[k])
  {
    if s == [] then []
    else if IsCombiningMark(s[0]) then Fold(s[1..])
    else [LowerAscii(s[0])] + Fold(s[1..])
  }

  /** Step 5, `.replace(/[^a-z0-9]+/g, '-')`: every maximal run of characters
      outside `[a-z0-9]` becomes one hyphen. `inRun` says that the character just
      before `s` belonged to such a run. */
  function Hyphenate(s: string, inRun: bool): (r: string)
    ensures AllSlugChars(r) && NoDoubleHyphen(r)
    ensures inRun ==> r == [] || r[0] != '-'
  {
    if s == [] then []
    else if IsAlnum(s[0]) then [s[0]] + Hyphenate(s[1..], false)
    else if inRun then Hyphenate(s[1..], true)
    else "-" + Hyphenate(s[1..], true)
  }

  function DropLeadingHyphens(s: string): (r: string)
    ensures |r| <= |s| && r == s[|s| - |r|..]
    ensures forall k :: 0 <= k < |s| - |r| ==> s[k] == '-'
    ensures r == [] || r[0] != '-'
  {
    if s != [] && s[0] == '-' then DropLeadingHyphens(s[1..]) else s
  }

  function DropTrailingHyphens(s: string): (r: string)
    ensures |r| <= |s| && r == s[..|r|]
    ensures forall k :: |r| <= k < |s| ==> s[k] == '-'
    ensures r == [] || r[|r| - 1] != '-'
  {
    if s != [] && s[|s| - 1] == '-' then DropTrailingHyphens(s[..|s| - 1]) else s
  }

  /** Step 6, `.replace(/^-+|-+$/g, '')`. */
  function TrimHyphens(s: string): (r: string)
    ensures AllSlugChars(s) ==> AllSlugChars(r)
    ensures NoDoubleHyphen(s) ==> NoDoubleHyphen(r)
    ensures r == [] || (r[0] != '-' && r[|r| - 1] != '-')
  {
    var t := DropLeadingHyphens(s);
    var r := DropTrailingHyphens(t);
    assert r == s[|s| - |t|..|s| - |t| + |r|];
    r
  }

  /** Step 7, `.replace(/-{2,}/g, '-')`: a run of two or more hyphens becomes one. */
  function CollapseHyphens(s: string): (r: string)
    ensures NoDoubleHyphen(s) ==> r == s
  {
    if |s| >= 2 && s[0] == '-' && s[1] == '-' then CollapseHyphens(s[1..])
    else if s == [] then []
    else [s[0]] + CollapseHyphens(s[1..])
  }

  /** `normalizeTopicSlug` / `normalizeSlug`: the full chain, ending in `.slice(0, 48)`. */
  function NormalizeSlug(input: string): (r: string)
    ensures |r| <= MaxSlugLength
    ensures AllSlugChars(r) && NoDoubleHyphen(r)
    ensures r == [] || r[0] != '-'
    ensures r != [] && r[|r| - 1] == '-' ==> |r| == MaxSlugLength
  {
    Take(CollapseHyphens(Trimmed(input)), MaxSlugLength)
  }

  /** The chain up to step 6, before the cut at 48 characters. */
  function Trimmed(input: string): (t: string)
    ensures AllSlugChars(t) && NoDoubleHyphen(t)
    ensures t == [] || (t[0] != '-' && t[|t| - 1] != '-')
  {
    TrimHyphens(Hyphenate(Fold(input), false))
  }

  /** What a normalised slug looks like when nothing was cut off: short enough,
      only `[a-z0-9-]`, no doubled hyphen, no hyphen at either end. */
  predicate IsCanonicalSlug(s: string) {
    && |s| <= MaxSlugLength
    && AllSlugChars(s)
    && NoDoubleHyphen(s)
    && (s == [] || (s[0] != '-' && s[|s| - 1] != '-'))
  }

  lemma {:induction false} FoldOfSlugChars(s: string)
    requires AllSlugChars(s)
    ensures Fold(s) == s
  {
    if s != [] {
      FoldOfSlugChars(s[1..]);
    }
  }

  lemma {:induction false} HyphenateOfSlugChars(s: string, inRun: bool)
    requires AllSlugChars(s) && NoDoubleHyphen(s)
    requires inRun ==> s == [] || s[0] != '-'
    ensures Hyphenate(s, inRun) == s
  {
    if s != [] {
      assert NoDoubleHyphen(s[1..]) by {
        forall k | 0 < k < |s[1..]| ensures !(s[1..][k - 1] == '-' && s[1..][k] == '-') {
          assert s[1..][k - 1] == s[k] && s[1..][k] == s[k + 1];
        }
      }
      if IsAlnum(s[0]) {
        HyphenateOfSlugChars(s[1..], false);
      } else {
        assert |s| > 1 ==> s[1] != '-';
        HyphenateOfSlugChars(s[1..], true);
      }
    }
  }

  /** The canonical slugs are exactly the fixed points of the normaliser. */
  lemma NormalizeFixedPoints(s: string)
    ensures NormalizeSlug(s) == s <==> IsCanonicalSlug(s)
  {
    if AllSlugChars(s) && NoDoubleHyphen(s) && (s == [] || s[0] != '-') {
      FoldOfSlugChars(s);
      HyphenateOfSlugChars(s, false);
      if s != [] && s[|s| - 1] == '-' {
        assert DropLeadingHyphens(s) == s;
        assert |s| >= 2 ==> s[|s| - 2] != '-';
        assert DropTrailingHyphens(s) == s[..|s| - 1];
        assert |NormalizeSlug(s)| < |s|;
      } else {
        assert DropLeadingHyphens(s) == s;
        assert DropTrailingHyphens(s) == s;
      }
    }
  }

  /** Normalising an already normalised slug changes it exactly when the cut at 48
      characters left a hyphen at the end; otherwise normalising is idempotent. */
  lemma NormalizeTwice(input: string)
    ensures var r := NormalizeSlug(input);
            NormalizeSlug(r) == r <==> r == [] || r[|r| - 1] != '-'
  {
    NormalizeFixedPoints(NormalizeSlug(input));
  }

  lemma {:induction false} FoldOfAlnums(s: string)
    requires forall k :: 0 <= k < |s| ==> IsAlnum(s[k])
    ensures Fold(s) == s
  {
    if s != [] {
      FoldOfAlnums(s[1..]);
    }
  }

  lemma {:induction false} HyphenateAlnumPrefix(a: string, rest: string, inRun: bool)
    requires forall k :: 0 <= k < |a| ==> IsAlnum(a[k])
    requires a != []
    ensures Hyphenate(a + rest, inRun) == a + Hyphenate(rest, false)
  {
    assert (a + rest)[1..] == a[1..] + rest;
    if |a| > 1 {
      HyphenateAlnumPrefix(a[1..], rest, false);
    }
  }

  /** Any 47 letters or digits followed by a space and one more letter: the cut
      at 48 characters keeps the hyphen. */
  lemma TrimmedOfWords(a: string)
    requires a != []
    requires forall k :: 0 <= k < |a| ==> IsAlnum(a[k])
    ensures Trimmed(a + " b") == a + "-b"
  {
    var x := a + " b";
    FoldAppend(a, " b");
    FoldOfAlnums(a);
    assert Fold(" b") == " b";
    HyphenateAlnumPrefix(a, " b", false);
    assert Hyphenate(" b", false) == "-b";
    var h := a + "-b";
    assert Hyphenate(Fold(x), false) == h;
    assert h[0] == a[0];
    assert DropLeadingHyphens(h) == h;
    assert DropTrailingHyphens(h) == h;
  }

  lemma CutLeavesHyphen(a: string)
    requires |a| == MaxSlugLength - 1
    requires forall k :: 0 <= k < |a| ==> IsAlnum(a[k])
    ensures NormalizeSlug(a + " b") == a + "-"
  {
    TrimmedOfWords(a);
    var h := a + "-b";
    assert CollapseHyphens(h) == h;
    assert h[..MaxSlugLength] == a + "-";
  }

  /** ... and a second pass removes that hyphen. */
  lemma SecondPassDropsHyphen(a: string)
    requires |a| == MaxSlugLength - 1
    requires forall k :: 0 <= k < |a| ==> IsAlnum(a[k])
    ensures NormalizeSlug(a + "-") == a
  {
    var r := a + "-";
    FoldAppend(a, "-");
    FoldOfAlnums(a);
    assert Fold("-") == "-";
    HyphenateAlnumPrefix(a, "-", false);
    assert Hyphenate("-", false) == "-";
    assert Hyphenate(Fold(r), false) == r;
    assert r[0] == a[0];
    assert DropLeadingHyphens(r) == r;
    assert r[..|r| - 1] == a;
    assert DropTrailingHyphens(a) == a;
    assert Trimmed(r) == a;
    assert NoDoubleHyphen(a);
  }

  /** A concrete input on which normalising twice differs from normalising once. */
  lemma NotIdempotentWitness()
    ensures var x := seq(47, _ => 'a') + " b";
            NormalizeSlug(NormalizeSlug(x)) != NormalizeSlug(x)
  {
    var a := seq(47, _ => 'a');
    CutLeavesHyphen(a);
    SecondPassDropsHyphen(a);
    assert |a + "-"| != |a|;
  }

  lemma {:induction false} FoldAppend(a: string, b: string)
    ensures Fold(a + b) == Fold(a) + Fold(b)
  {
    if a != [] {
      assert (a + b)[0] == a[0];
      assert (a + b)[1..] == a[1..] + b;
      FoldAppend(a[1..], b);
    } else {
      assert a + b == b;
    }
  }

  lemma {:induction false} AlnumsAppend(a: string, b: string)
    ensures Alnums(a + b) == Alnums(a) + Alnums(b)
  {
    if a != [] {
      assert (a + b)[0] == a[0];
      assert (a + b)[1..] == a[1..] + b;
      AlnumsAppend(a[1..], b);
    } else {
      assert a + b == b;
    }
  }

  lemma {:induction false} AlnumsOfHyphens(s: string)
    requires forall k :: 0 <= k < |s| ==> s[k] == '-'
    ensures Alnums(s) == []
  {
    if s != [] {
      AlnumsOfHyphens(s[1..]);
    }
  }

  lemma {:induction false} AlnumsHyphenate(s: string, inRun: bool)
    ensures Alnums(Hyphenate(s, inRun)) == Alnums(s)
  {
    if s != [] {
      AlnumsHyphenate(s[1..], !IsAlnum(s[0]));
      if IsAlnum(s[0]) {
        AlnumsAppend([s[0]], Hyphenate(s[1..], false));
      } else if !inRun {
        AlnumsAppend("-", Hyphenate(s[1..], true));
      }
    }
  }

  lemma AlnumsDropLeading(s: string)
    ensures Alnums(DropLeadingHyphens(s)) == Alnums(s)
  {
    var t := DropLeadingHyphens(s);
    var d := s[..|s| - |t|];
    assert s == d + t;
    AlnumsAppend(d, t);
    AlnumsOfHyphens(d);
  }

  lemma AlnumsDropTrailing(t: string)
    ensures Alnums(DropTrailingHyphens(t)) == Alnums(t)
  {
    var r := DropTrailingHyphens(t);
    var d := t[|r|..];
    assert t == r + d;
    AlnumsAppend(r, d);
    AlnumsOfHyphens(d);
  }

  lemma AlnumsTrimHyphens(s: string)
    ensures Alnums(TrimHyphens(s)) == Alnums(s)
  {
    AlnumsDropLeading(s);
    AlnumsDropTrailing(DropLeadingHyphens(s));
  }

  /** The letters and digits of the folded input.  */
  function Letters(input: string): string { Alnums(Fold(input)) }

  /** Normalising keeps the letters and digits in their order and drops only
      from the end: the slug's letters are a prefix of the input's. */
  lemma SlugKeepsLetters(input: string)
    ensures var r := NormalizeSlug(input);
            |Alnums(r)| <= |Letters(input)| && Alnums(r) == Letters(input)[..|Alnums(r)|]
  {
    var t := Trimmed(input);
    AlnumsHyphenate(Fold(input), false);
    AlnumsTrimHyphens(Hyphenate(Fold(input), false));
    assert Alnums(t) == Letters(input);
    var r := NormalizeSlug(input);
    assert t == r + t[|r|..];
    AlnumsAppend(r, t[|r|..]);
  }

  /** The slug is empty exactly when the input has no ASCII letter or digit. */
  lemma EmptySlugIff(input: string)
    ensures NormalizeSlug(input) == [] <==> Letters(input) == []
  {
    var t := Trimmed(input);
    AlnumsHyphenate(Fold(input), false);
    AlnumsTrimHyphens(Hyphenate(Fold(input), false));
    if t != [] {
      assert t[0] != '-' && IsSlugChar(t[0]);
      assert Alnums(t) != [];
    } else {
      assert Alnums(t) == [];
    }
  }
}
