/** Python's `str.lower()` and `str.strip()` over ASCII, and their composition,
    the normalisation every text cleaner of the system applies. */
module Text {

  /** The ASCII characters Python's `str.isspace()` accepts: tab, line feed,
      vertical tab, form feed, carriage return, the four separators 0x1c-0x1f, space. */
  predicate IsSpace(c: char) {
    9 <= c as int <= 13 || 28 <= c as int <= 32
  }

  predicate IsUpper(c: char) {
    'A' <= c <= 'Z'
  }

  /** No character of `s` is an ASCII capital. */
  predicate NoUpper(s: string) {
    forall i :: 0 <= i < |s| ==> !IsUpper(s[i])
  }

  /** Neither end of `s` is whitespace: `strip()` would leave it alone. */
  predicate Stripped(s: string) {
    |s| == 0 || (!IsSpace(s[0]) && !IsSpace(s[|s| - 1]))
  }

  predicate AllSpace(s: string) {
    forall i :: 0 <= i < |s| ==> IsSpace(s[i])
  }

  function LowerChar(c: char): (d: char)
    ensures !IsUpper(d)
    ensures IsUpper(c) ==> d as int == c as int + 32
    ensures !IsUpper(c) ==> d == c
  {
    if IsUpper(c) then (c as int + 32) as char else c
  }

  /** `s.lower()`: every capital replaced by its small letter, nothing else touched. */
  function Lower(s: string): (r: string)
    ensures |r| == |s|
    ensures NoUpper(r)
    ensures forall i :: 0 <= i < |s| && !IsUpper(s[i]) ==> r[i] == s[i]
    ensures forall i :: 0 <= i < |s| && IsUpper(s[i]) ==> r[i] as int == s[i] as int + 32
  {
    seq(|s|, i requires 0 <= i < |s| => LowerChar(s[i]))
  }

  /** The first position at or after `i` that is not whitespace, or `|s|`. */
  function SkipSpace(s: string, i: nat): (k: nat)
    requires i <= |s|
    ensures i <= k <= |s|
    ensures forall p :: i <= p < k ==> IsSpace(s[p])
    ensures k == |s| || !IsSpace(s[k])
    decreases |s| - i
  {
    if i < |s| && IsSpace(s[i]) then SkipSpace(s, i + 1) else i
  }

  /** The position just after the last character before `j` that is not
      whitespace, or 0. */
  function SkipSpaceBack(s: string, j: nat): (k: nat)
    requires j <= |s|
    ensures k <= j
    ensures forall p :: k <= p < j ==> IsSpace(s[p])
    ensures k == 0 || !IsSpace(s[k - 1])
  {
    if j > 0 && IsSpace(s[j - 1]) then SkipSpaceBack(s, j - 1) else j
  }

  /** How many whitespace characters `s` starts with: what `s.lstrip()` drops. */
  function Lead(s: string): (k: nat)
    ensures k <= |s|
    ensures forall i :: 0 <= i < k ==> IsSpace(s[i])
    ensures k == |s| || !IsSpace(s[k])
  {
    SkipSpace(s, 0)
  }

  /** How many whitespace characters `s` ends with: what `s.rstrip()` drops. */
  function Trail(s: string): (k: nat)
    ensures k <= |s|
    ensures forall i :: |s| - k <= i < |s| ==> IsSpace(s[i])
    ensures k == |s| || !IsSpace(s[|s| - k - 1])
  {
    |s| - SkipSpaceBack(s, |s|)
  }

  /** `s.strip()`: the longest infix of `s` whose ends are not whitespace, all
      that surrounds it being whitespace. */
  function Strip(s: string): (r: string)
    ensures Stripped(r)
    ensures Lead(s) + |r| <= |s|
    ensures forall k :: 0 <= k < |r| ==> r[k] == s[Lead(s) + k]
    ensures forall i :: Lead(s) + |r| <= i < |s| ==> IsSpace(s[i])
  {
    var i, j := Lead(s), |s| - Trail(s);
    if i <= j then s[i..j] else []
  }

  /** `r` is what lower-casing and stripping leave of `s`: the characters of `s`
      from its first non-whitespace one on, each lowered, up to a point after
      which `s` holds only whitespace, with neither end of `r` whitespace.
      `CleanedFromUnique` shows that at most one `r` fits. */
  predicate CleanedFrom(s: string, r: string) {
    && Lead(s) + |r| <= |s|
    && Stripped(r)
    && (forall k :: 0 <= k < |r| ==> r[k] == LowerChar(s[Lead(s) + k]))
    && (forall i :: Lead(s) + |r| <= i < |s| ==> IsSpace(s[i]))
  }

  /** `s.lower().strip()`, the cleaning both text helpers perform. */
  function Normalize(s: string): (r: string)
    ensures NoUpper(r)
    ensures CleanedFrom(s, r)
    ensures |r| <= |s|
  {
    StripKeepsNoUpper(Lower(s));
    StripOfLowerIsCleaned(s);
    Strip(Lower(s))
  }

  lemma StripOfLowerIsCleaned(s: string)
    ensures CleanedFrom(s, Strip(Lower(s)))
  {
    var l := Lower(s);
    var r := Strip(l);
    LeadOfLower(s);
    assert forall k :: 0 <= k < |r| ==> r[k] == LowerChar(s[Lead(s) + k]) by {
      forall k | 0 <= k < |r|
        ensures r[k] == LowerChar(s[Lead(s) + k])
      {
        LowerAt(s, Lead(s) + k);
      }
    }
    assert forall i :: Lead(s) + |r| <= i < |s| ==> IsSpace(s[i]) by {
      forall i | Lead(s) + |r| <= i < |s|
        ensures IsSpace(s[i])
      {
        LowerAt(s, i);
        LowerKeepsSpace(s[i]);
      }
    }
  }

  /** Character `i` of `s.lower()` is character `i` of `s`, lowered. */
  lemma LowerAt(s: string, i: nat)
    requires i < |s|
    ensures Lower(s)[i] == LowerChar(s[i])
  {
  }

  /** Lowering neither makes nor removes whitespace. */
  lemma LowerKeepsSpace(c: char)
    ensures IsSpace(LowerChar(c)) <==> IsSpace(c)
  {
  }

  /** Lowering leaves the leading whitespace where it was. */
  lemma LeadOfLower(s: string)
    ensures Lead(Lower(s)) == Lead(s)
  {
    var k := Lead(s);
    forall i | 0 <= i < k
      ensures IsSpace(Lower(s)[i])
    {
      LowerKeepsSpace(s[i]);
    }
    if k < |s| {
      LowerKeepsSpace(s[k]);
    }
    LeadIs(Lower(s), k);
  }

  /** At most one text is cleaned from `s`: `CleanedFrom` fixes the result. */
  lemma CleanedFromUnique(s: string, r: string, r': string)
    requires CleanedFrom(s, r) && CleanedFrom(s, r')
    ensures r == r'
  {
    // The last character of each is not whitespace in `s`, so neither can
    // end before the other.
    if |r'| > 0 {
      LowerKeepsSpace(s[Lead(s) + |r'| - 1]);
      assert !IsSpace(s[Lead(s) + |r'| - 1]);
    }
    if |r| > 0 {
      LowerKeepsSpace(s[Lead(s) + |r| - 1]);
      assert !IsSpace(s[Lead(s) + |r| - 1]);
    }
  }

  lemma StripKeepsNoUpper(s: string)
    requires NoUpper(s)
    ensures NoUpper(Strip(s))
  {
  }

  /** Lowering a string without capitals changes nothing. */
  lemma LowerOfLowercase(s: string)
    requires NoUpper(s)
    ensures Lower(s) == s
  {
  }

  /** The leading whitespace is the whitespace run that ends at the first
      other character. */
  lemma LeadIs(s: string, k: nat)
    requires k <= |s| && (forall i :: 0 <= i < k ==> IsSpace(s[i]))
    requires k == |s| || !IsSpace(s[k])
    ensures Lead(s) == k
  {
  }

  /** The trailing whitespace is the whitespace run that starts after the last
      other character. */
  lemma TrailIs(s: string, k: nat)
    requires k <= |s| && (forall i :: |s| - k <= i < |s| ==> IsSpace(s[i]))
    requires k == |s| || !IsSpace(s[|s| - k - 1])
    ensures Trail(s) == k
  {
  }

  /** Stripping a string whose ends are not whitespace changes nothing. */
  lemma StripOfStripped(s: string)
    requires Stripped(s)
    ensures Strip(s) == s
  {
    if |s| > 0 {
      LeadIs(s, 0);
      TrailIs(s, 0);
      assert s[0..|s|] == s;
    }
  }

  /** Cleaning is idempotent: a cleaned string is its own cleaning. */
  lemma NormalizeIdempotent(s: string)
    ensures Normalize(Normalize(s)) == Normalize(s)
  {
    var t := Normalize(s);
    LowerOfLowercase(t);
    StripOfStripped(t);
  }

  /** The whitespace-free inside of `s` is what cleaning keeps: cleaning a string
      padded with whitespace on both sides gives the cleaning of the string. */
  lemma NormalizeIgnoresPadding(pre: string, s: string, post: string)
    requires AllSpace(pre) && AllSpace(post)
    ensures Normalize(pre + s + post) == Normalize(s)
  {
    LowerPreservesSpace(pre);
    LowerPreservesSpace(post);
    LowerDistributes(pre, s, post);
    StripIgnoresPadding(Lower(pre), Lower(s), Lower(post));
  }

  lemma LowerPreservesSpace(s: string)
    requires AllSpace(s)
    ensures AllSpace(Lower(s))
  {
  }

  lemma LowerDistributes(a: string, b: string, c: string)
    ensures Lower(a + b + c) == Lower(a) + Lower(b) + Lower(c)
  {
  }

  /** A string of whitespace only strips to nothing. */
  lemma StripOfAllSpace(s: string)
    requires forall i :: 0 <= i < |s| ==> IsSpace(s[i])
    ensures Strip(s) == []
  {
    LeadIs(s, |s|);
  }

  /** Whitespace around a string does not change what `strip()` keeps. */
  lemma StripIgnoresPadding(pre: string, s: string, post: string)
    requires AllSpace(pre) && AllSpace(post)
    ensures Strip(pre + s + post) == Strip(s)
  {
    if Lead(s) == |s| {
      StripOfAllSpace(s);
      PaddedSpace(pre, s, post);
      StripOfAllSpace(pre + s + post);
    } else {
      StripOfPadded(pre, s, post);
    }
  }

  lemma StripOfPadded(pre: string, s: string, post: string)
    requires AllSpace(pre) && AllSpace(post) && Lead(s) < |s|
    ensures Strip(pre + s + post) == Strip(s)
  {
    var a, b := Lead(s), Trail(s);
    assert a < |s| - b by {
      assert !IsSpace(s[a]);
    }
    PaddedLead(pre, s, post);
    PaddedTrail(pre, s, post);
    InfixOfPadded(pre, s, post, a, |s| - b);
    StripOfShifted(pre + s + post, s, |pre|, a, |s| - b);
  }

  /** When `s` sits inside `u` at offset `off`, and the whitespace around it in
      `u` extends its own, both strip to the same string. */
  lemma StripOfShifted(u: string, s: string, off: nat, i: nat, j: nat)
    requires i == Lead(s) && j == |s| - Trail(s) && i <= j && off + |s| <= |u|
    requires Lead(u) == off + i && |u| - Trail(u) == off + j
    requires u[off + i..off + j] == s[i..j]
    ensures Strip(u) == Strip(s)
  {
    StripIsSlice(s);
    StripIsSlice(u);
  }

  lemma StripIsSlice(s: string)
    requires Lead(s) <= |s| - Trail(s)
    ensures Strip(s) == s[Lead(s)..|s| - Trail(s)]
  {
  }

  lemma InfixOfPadded(pre: string, s: string, post: string, i: nat, j: nat)
    requires i <= j <= |s|
    ensures (pre + s + post)[|pre| + i..|pre| + j] == s[i..j]
  {
  }

  /** Whitespace padded with whitespace is whitespace. */
  lemma PaddedSpace(pre: string, s: string, post: string)
    requires AllSpace(pre) && AllSpace(post) && Lead(s) == |s|
    ensures forall i :: 0 <= i < |pre + s + post| ==> IsSpace((pre + s + post)[i])
  {
    var u := pre + s + post;
    forall i | 0 <= i < |u|
      ensures IsSpace(u[i])
    {
      if |pre| <= i < |pre| + |s| {
        assert u[i] == s[i - |pre|];
      }
    }
  }

  /** Padding a string that is not all whitespace adds its padding to the lead. */
  lemma PaddedLead(pre: string, s: string, post: string)
    requires AllSpace(pre) && Lead(s) < |s|
    ensures Lead(pre + s + post) == |pre| + Lead(s)
  {
    var u, a := pre + s + post, Lead(s);
    forall i | 0 <= i < |pre| + a
      ensures IsSpace(u[i])
    {
      if |pre| <= i {
        assert u[i] == s[i - |pre|];
      }
    }
    assert u[|pre| + a] == s[a];
    LeadIs(u, |pre| + a);
  }

  /** Padding a string that is not all whitespace adds its padding to the trail. */
  lemma PaddedTrail(pre: string, s: string, post: string)
    requires AllSpace(post) && Lead(s) < |s|
    ensures Trail(pre + s + post) == |post| + Trail(s)
  {
    var u, b := pre + s + post, Trail(s);
    assert !IsSpace(s[Lead(s)]);
    forall i | |u| - (|post| + b) <= i < |u|
      ensures IsSpace(u[i])
    {
      if i < |pre| + |s| {
        assert u[i] == s[i - |pre|];
      }
    }
    assert u[|pre| + |s| - b - 1] == s[|s| - b - 1];
    TrailIs(u, |post| + b);
  }
}
