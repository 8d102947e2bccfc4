/** Account-label text handling: the `normalizeName` canonical form
    (trim, upper-case, collapse whitespace runs) and the two case-insensitive
    label matchers `/tổng\s*cộng/i` (grand total) and `/tài\s*sản/i` (assets). */
module Labels {

  /** JavaScript's `\s` class, which is also the set `String.prototype.trim`
      strips: ASCII whitespace, NBSP, BOM and the Unicode space separators. */
  predicate IsSpace(c: char) {
    || c == ' ' || c == '\t' || c == '\n' || c == '\r' || c == '\U{B}' || c == '\U{C}'
    || c == '\U{A0}' || c == '\U{1680}' || ('\U{2000}' <= c <= '\U{200A}')
    || c == '\U{2028}' || c == '\U{2029}' || c == '\U{202F}' || c == '\U{205F}'
    || c == '\U{3000}' || c == '\U{FEFF}'
  }

  /** Upper-case mapping of one character, for the alphabet account labels
      use: ASCII, the Latin-1 letters à..þ (except ÷) and the Vietnamese
      letters of Latin Extended-A/B and Latin Extended Additional. */
  function UpperChar(c: char): (u: char)
    ensures IsSpace(c) ==> u == c
  {
    if 'a' <= c <= 'z' then (c as int - 32) as char
    else if '\U{E0}' <= c <= '\U{FE}' && c != '\U{F7}' then (c as int - 32) as char
    else if c == '\U{103}' || c == '\U{111}' || c == '\U{129}' || c == '\U{169}' then (c as int - 1) as char
    else if c == '\U{1A1}' || c == '\U{1B0}' then (c as int - 1) as char
    else if '\U{1EA1}' <= c <= '\U{1EF9}' && (c as int) % 2 == 1 then (c as int - 1) as char
    else c
  }

  lemma UpperCharIdempotent(c: char)
    ensures UpperChar(UpperChar(c)) == UpperChar(c)
  {
  }

  function Upper(s: string): (r: string)
    ensures |r| == |s|
    ensures forall i :: 0 <= i < |s| ==> r[i] == UpperChar(s[i])
  {
    seq(|s|, i requires 0 <= i < |s| => UpperChar(s[i]))
  }

  /** Leading whitespace removed. */
  function TrimStart(s: string): string
    decreases |s|
  {
    if |s| > 0 && IsSpace(s[0]) then TrimStart(s[1..]) else s
  }

  /** Trailing whitespace removed. */
  function TrimEnd(s: string): string
    decreases |s|
  {
    if |s| > 0 && IsSpace(s[|s| - 1]) then TrimEnd(s[..|s| - 1]) else s
  }

  /** `String.prototype.trim`. */
  function Trim(s: string): string {
    TrimEnd(TrimStart(s))
  }

  /** Drops a whole run of leading whitespace. */
  function DropSpaces(s: string): (r: string)
    ensures |r| <= |s|
    ensures |r| > 0 ==> !IsSpace(r[0])
    decreases |s|
  {
    if |s| > 0 && IsSpace(s[0]) then DropSpaces(s[1..]) else s
  }

  /** `s.replace(/\s\s+/g, ' ')`: every run of two or more whitespace
      characters becomes one plain space; a lone whitespace character stays. */
  function Collapse(s: string): string
    decreases |s|
  {
    if |s| == 0 then []
    else if |s| >= 2 && IsSpace(s[0]) && IsSpace(s[1]) then [' '] + Collapse(DropSpaces(s))
    else [s[0]] + Collapse(s[1..])
  }

  /** `normalizeName`: trim, upper-case, collapse whitespace runs. */
  function Normalize(s: string): string {
    Collapse(Upper(Trim(s)))
  }

  // ---------------------------------------------------------------------
  // Normalisation is idempotent.

  predicate NoEdgeSpace(s: string) {
    |s| == 0 || (!IsSpace(s[0]) && !IsSpace(s[|s| - 1]))
  }

  predicate NoAdjacentSpaces(s: string) {
    forall i :: 0 <= i < |s| - 1 ==> !(IsSpace(s[i]) && IsSpace(s[i + 1]))
  }

  lemma {:induction false} TrimStartShape(s: string)
    ensures |TrimStart(s)| > 0 ==> !IsSpace(TrimStart(s)[0])
    ensures exists k :: 0 <= k <= |s| && TrimStart(s) == s[k..]
    decreases |s|
  {
    if |s| > 0 && IsSpace(s[0]) {
      TrimStartShape(s[1..]);
      var k :| 0 <= k <= |s[1..]| && TrimStart(s[1..]) == s[1..][k..];
      assert TrimStart(s) == s[k + 1..];
    } else {
      assert TrimStart(s) == s[0..];
    }
  }

  lemma {:induction false} TrimEndShape(s: string)
    ensures |TrimEnd(s)| > 0 ==> !IsSpace(TrimEnd(s)[|TrimEnd(s)| - 1])
    ensures exists k :: 0 <= k <= |s| && TrimEnd(s) == s[..k]
    decreases |s|
  {
    if |s| > 0 && IsSpace(s[|s| - 1]) {
      TrimEndShape(s[..|s| - 1]);
      var k :| 0 <= k <= |s[..|s| - 1]| && TrimEnd(s[..|s| - 1]) == s[..|s| - 1][..k];
      assert TrimEnd(s) == s[..k];
    } else {
      assert TrimEnd(s) == s[..|s|];
    }
  }

  lemma TrimNoEdgeSpace(s: string)
    ensures NoEdgeSpace(Trim(s))
  {
    var t := TrimStart(s);
    TrimStartShape(s);
    TrimEndShape(t);
    var k :| 0 <= k <= |t| && TrimEnd(t) == t[..k];
  }

  lemma TrimOfTrimmed(s: string)
    requires NoEdgeSpace(s)
    ensures Trim(s) == s
  {
  }

  /** Trimming first changes nothing: a node's trimmed name normalises to
      the same key as the raw label it was created from. */
  lemma NormalizeTrim(s: string)
    ensures Trim(Trim(s)) == Trim(s)
    ensures Normalize(Trim(s)) == Normalize(s)
  {
    TrimNoEdgeSpace(s);
    TrimOfTrimmed(Trim(s));
  }

  lemma {:induction false} DropSpacesSuffix(s: string)
    ensures exists k :: 0 <= k <= |s| && DropSpaces(s) == s[k..] && forall m :: 0 <= m < k ==> IsSpace(s[m])
    decreases |s|
  {
    if |s| > 0 && IsSpace(s[0]) {
      DropSpacesSuffix(s[1..]);
      var k :| 0 <= k <= |s[1..]| && DropSpaces(s[1..]) == s[1..][k..] && forall m :: 0 <= m < k ==> IsSpace(s[1..][m]);
      assert DropSpaces(s) == s[k + 1..];
    } else {
      assert DropSpaces(s) == s[0..];
    }
  }

  lemma NoAdjacentSpacesCons(x: char, c: string)
    requires NoAdjacentSpaces(c)
    requires |c| > 0 && IsSpace(x) ==> !IsSpace(c[0])
    ensures NoAdjacentSpaces([x] + c)
  {
    var r := [x] + c;
    forall i | 0 <= i < |r| - 1 ensures !(IsSpace(r[i]) && IsSpace(r[i + 1])) {
      if i > 0 {
        assert r[i] == c[i - 1] && r[i + 1] == c[i];
      } else {
        assert r[1] == c[0];
      }
    }
  }

  /** Collapse leaves the ends of a string where they were. */
  lemma {:induction false} CollapseEnds(s: string)
    ensures |Collapse(s)| > 0 <==> |s| > 0
    ensures |s| > 0 ==> (IsSpace(Collapse(s)[0]) <==> IsSpace(s[0]))
    ensures |s| > 0 ==> (IsSpace(Collapse(s)[|Collapse(s)| - 1]) <==> IsSpace(s[|s| - 1]))
    decreases |s|
  {
    if |s| == 0 {
    } else if |s| >= 2 && IsSpace(s[0]) && IsSpace(s[1]) {
      var t := DropSpaces(s);
      DropSpacesSuffix(s);
      var k :| 0 <= k <= |s| && t == s[k..] && forall m :: 0 <= m < k ==> IsSpace(s[m]);
      CollapseEnds(t);
      if |t| > 0 {
        assert s[|s| - 1] == t[|t| - 1];
      } else {
        assert IsSpace(s[k - 1]);
      }
    } else {
      CollapseEnds(s[1..]);
      if |s| >= 2 {
        assert s[1..][0] == s[1];
        assert s[1..][|s[1..]| - 1] == s[|s| - 1];
      }
    }
  }

  /** Collapse's output never holds two adjacent whitespace characters. */
  lemma {:induction false} CollapseNoAdjacent(s: string)
    ensures NoAdjacentSpaces(Collapse(s))
    decreases |s|
  {
    if |s| == 0 {
    } else if |s| >= 2 && IsSpace(s[0]) && IsSpace(s[1]) {
      var t := DropSpaces(s);
      CollapseNoAdjacent(t);
      CollapseEnds(t);
      NoAdjacentSpacesCons(' ', Collapse(t));
    } else {
      CollapseNoAdjacent(s[1..]);
      CollapseEnds(s[1..]);
      if |s| >= 2 {
        assert s[1..][0] == s[1];
      }
      NoAdjacentSpacesCons(s[0], Collapse(s[1..]));
    }
  }

  lemma {:induction false} CollapseOfCollapsed(s: string)
    requires NoAdjacentSpaces(s)
    ensures Collapse(s) == s
    decreases |s|
  {
    if |s| > 0 {
      assert !(|s| >= 2 && IsSpace(s[0]) && IsSpace(s[1]));
      CollapseOfCollapsed(s[1..]);
    }
  }

  lemma UpperIdempotent(s: string)
    ensures Upper(Upper(s)) == Upper(s)
  {
    forall i | 0 <= i < |s| {
      UpperCharIdempotent(s[i]);
    }
  }

  lemma UpperKeepsSpaces(s: string)
    ensures forall i :: 0 <= i < |s| ==> (IsSpace(Upper(s)[i]) <==> IsSpace(s[i]))
  {
    forall i | 0 <= i < |s|
      ensures IsSpace(Upper(s)[i]) <==> IsSpace(s[i])
    {
      UpperCharKeepsSpace(s[i]);
    }
  }

  lemma UpperCharKeepsSpace(c: char)
    ensures IsSpace(UpperChar(c)) <==> IsSpace(c)
  {
  }

  /** Normalising an already normalised label changes nothing, so labels
      compared after `normalizeName` on both sides compare consistently. */
  lemma NormalizeIdempotent(s: string)
    ensures Normalize(Normalize(s)) == Normalize(s)
  {
    var t := Trim(s);
    var u := Upper(t);
    var n := Collapse(u);
    assert n == Normalize(s);
    TrimNoEdgeSpace(s);
    UpperKeepsSpaces(t);
    assert NoEdgeSpace(u);
    CollapseEnds(u);
    assert NoEdgeSpace(n);
    TrimOfTrimmed(n);
    assert Trim(n) == n;
    UpperIdempotent(t);
    CollapseUpperFixed(u);
    assert Upper(n) == n;
    CollapseNoAdjacent(u);
    CollapseOfCollapsed(n);
    assert Collapse(n) == n;
  }

  /** Upper-casing the collapse of an upper-cased string changes nothing. */
  lemma {:induction false} CollapseUpperFixed(u: string)
    requires Upper(u) == u
    ensures Upper(Collapse(u)) == Collapse(u)
    decreases |u|
  {
    if |u| == 0 {
    } else if |u| >= 2 && IsSpace(u[0]) && IsSpace(u[1]) {
      var t := DropSpaces(u);
      DropSpacesSuffix(u);
      var k :| 0 <= k <= |u| && t == u[k..] && forall m :: 0 <= m < k ==> IsSpace(u[m]);
      assert Upper(t) == t by {
        forall i | 0 <= i < |t| ensures Upper(t)[i] == t[i] {
          assert t[i] == u[k + i];
          assert Upper(u)[k + i] == u[k + i];
        }
      }
      CollapseUpperFixed(t);
      assert Collapse(u) == [' '] + Collapse(t);
      assert Upper([' '] + Collapse(t)) == [' '] + Upper(Collapse(t));
    } else {
      var t := u[1..];
      assert Upper(t) == t by {
        forall i | 0 <= i < |t| ensures Upper(t)[i] == t[i] {
          assert Upper(u)[i + 1] == u[i + 1];
        }
      }
      CollapseUpperFixed(t);
      assert Collapse(u) == [u[0]] + Collapse(t);
      assert Upper(u)[0] == u[0];
      assert Upper([u[0]] + Collapse(t)) == [UpperChar(u[0])] + Upper(Collapse(t));
    }
  }

  // ---------------------------------------------------------------------
  // The case-insensitive "word, optional whitespace, word" matchers.

  /** `s` begins with `w`, compared case-insensitively. */
  predicate StartsWithWord(s: string, w: string) {
    |w| <= |s| && forall i :: 0 <= i < |w| ==> UpperChar(s[i]) == UpperChar(w[i])
  }

  /** `s` matches `\s*b` at its start. */
  predicate SpacesThen(s: string, b: string)
    decreases |s|
  {
    StartsWithWord(s, b) || (|s| > 0 && IsSpace(s[0]) && SpacesThen(s[1..], b))
  }

  /** `s` matches `a\s*b` at its start. */
  predicate MatchAt(s: string, a: string, b: string) {
    StartsWithWord(s, a) && SpacesThen(s[|a|..], b)
  }

  /** `/a\s*b/i.test(s)`: some position of `s` matches. */
  predicate ContainsPair(s: string, a: string, b: string)
    decreases |s|
  {
    MatchAt(s, a, b) || (|s| > 0 && ContainsPair(s[1..], a, b))
  }

  /** `/tổng\s*cộng/i`: the grand-total marker. */
  predicate IsTotalLabel(s: string) {
    ContainsPair(s, "tổng", "cộng")
  }

  /** `/tài\s*sản/i`: the assets marker. */
  predicate IsAssetsLabel(s: string) {
    ContainsPair(s, "tài", "sản")
  }

  /** Words whose first and last letters are not whitespace in any case. */
  predicate SolidWord(w: string) {
    |w| > 0 && !IsSpace(UpperChar(w[0])) && !IsSpace(UpperChar(w[|w| - 1]))
  }

  lemma {:induction false} ContainsPairSkipsLeadingSpace(c: char, s: string, a: string, b: string)
    requires IsSpace(c) && SolidWord(a) && SolidWord(b)
    ensures ContainsPair([c] + s, a, b) <==> ContainsPair(s, a, b)
  {
    assert ([c] + s)[1..] == s;
    assert !StartsWithWord([c] + s, a) by {
      assert ([c] + s)[0] == c;
    }
  }

  lemma {:induction false} StartsWithWordIgnoresTrailingSpace(s: string, c: char, w: string)
    requires IsSpace(c) && SolidWord(w)
    ensures StartsWithWord(s + [c], w) <==> StartsWithWord(s, w)
  {
    if |w| == |s| + 1 {
      assert !StartsWithWord(s + [c], w) by {
        assert (s + [c])[|w| - 1] == c;
      }
    }
    if StartsWithWord(s + [c], w) {
      assert |w| <= |s|;
      forall i | 0 <= i < |w| ensures UpperChar(s[i]) == UpperChar(w[i]) {
        assert (s + [c])[i] == s[i];
      }
    }
    if StartsWithWord(s, w) {
      forall i | 0 <= i < |w| ensures UpperChar((s + [c])[i]) == UpperChar(w[i]) {
        assert (s + [c])[i] == s[i];
      }
    }
  }

  lemma {:induction false} SpacesThenIgnoresTrailingSpace(s: string, c: char, b: string)
    requires IsSpace(c) && SolidWord(b)
    ensures SpacesThen(s + [c], b) <==> SpacesThen(s, b)
    decreases |s|
  {
    StartsWithWordIgnoresTrailingSpace(s, c, b);
    if |s| > 0 {
      assert (s + [c])[1..] == s[1..] + [c];
      SpacesThenIgnoresTrailingSpace(s[1..], c, b);
    } else {
      StartsWithWordIgnoresTrailingSpace([], c, b);
      assert ([] + [c])[1..] == [];
      assert [] + [c] == [c];
    }
  }

  lemma {:induction false} ContainsPairIgnoresTrailingSpace(s: string, c: char, a: string, b: string)
    requires IsSpace(c) && SolidWord(a) && SolidWord(b)
    ensures ContainsPair(s + [c], a, b) <==> ContainsPair(s, a, b)
    decreases |s|
  {
    StartsWithWordIgnoresTrailingSpace(s, c, a);
    if StartsWithWord(s, a) {
      assert (s + [c])[|a|..] == s[|a|..] + [c];
      SpacesThenIgnoresTrailingSpace(s[|a|..], c, b);
    }
    assert MatchAt(s + [c], a, b) <==> MatchAt(s, a, b);
    if |s| > 0 {
      assert (s + [c])[1..] == s[1..] + [c];
      ContainsPairIgnoresTrailingSpace(s[1..], c, a, b);
    } else {
      assert ([] + [c])[1..] == [];
      assert !StartsWithWord([], a);
      assert !MatchAt([], a, b);
    }
  }

  lemma {:induction false} ContainsPairTrimStart(s: string, a: string, b: string)
    requires SolidWord(a) && SolidWord(b)
    ensures ContainsPair(TrimStart(s), a, b) <==> ContainsPair(s, a, b)
    decreases |s|
  {
    if |s| > 0 && IsSpace(s[0]) {
      assert s == [s[0]] + s[1..];
      ContainsPairSkipsLeadingSpace(s[0], s[1..], a, b);
      ContainsPairTrimStart(s[1..], a, b);
    }
  }

  lemma {:induction false} ContainsPairTrimEnd(s: string, a: string, b: string)
    requires SolidWord(a) && SolidWord(b)
    ensures ContainsPair(TrimEnd(s), a, b) <==> ContainsPair(s, a, b)
    decreases |s|
  {
    if |s| > 0 && IsSpace(s[|s| - 1]) {
      assert s == s[..|s| - 1] + [s[|s| - 1]];
      ContainsPairIgnoresTrailingSpace(s[..|s| - 1], s[|s| - 1], a, b);
      ContainsPairTrimEnd(s[..|s| - 1], a, b);
    }
  }

  /** Trimming never changes whether a label carries a marker, so testing
      the raw label (as the tree builder does) and testing the trimmed
      node name agree. */
  lemma MarkersIgnoreTrim(s: string)
    ensures IsTotalLabel(Trim(s)) <==> IsTotalLabel(s)
    ensures IsAssetsLabel(Trim(s)) <==> IsAssetsLabel(s)
  {
    assert SolidWord("tổng") && SolidWord("cộng");
    assert SolidWord("tài") && SolidWord("sản");
    ContainsPairTrimStart(s, "tổng", "cộng");
    ContainsPairTrimEnd(TrimStart(s), "tổng", "cộng");
    ContainsPairTrimStart(s, "tài", "sản");
    ContainsPairTrimEnd(TrimStart(s), "tài", "sản");
  }

  lemma {:induction false} ContainsPairSuffix(s: string, k: nat, a: string, b: string)
    requires k <= |s| && ContainsPair(s[k..], a, b)
    ensures ContainsPair(s, a, b)
    decreases k
  {
    if k > 0 {
      assert s[1..][k - 1..] == s[k..];
      ContainsPairSuffix(s[1..], k - 1, a, b);
    }
  }
}
