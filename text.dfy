/**
 * The two string operations the group classifier relies on: Python's
 * `str.casefold` and the substring test `word in subject`.
 *
 * Case folding follows the Unicode case-folding table for every code point
 * up to U+00FF, the Latin-1 block that holds the Portuguese accented
 * letters, except that the sharp s folds to itself rather than to "ss";
 * code points above U+00FF are left unchanged.
 */
module Text {

  /** Upper-case letters of ASCII and Latin-1 whose fold is the code point
      0x20 above (A-Z, À-Ö, Ø-Þ). */
  predicate IsSimpleUpper(c: char) {
    ('A' <= c <= 'Z') || ('\U{C0}' <= c <= '\U{D6}') || ('\U{D8}' <= c <= '\U{DE}')
  }

  /** A character that folding leaves unchanged. */
  predicate IsFolded(c: char) {
    !IsSimpleUpper(c) && c != '\U{B5}'
  }

  /** The fold of one character. Folding is a projection: its result is
      always folded, and a folded character is its own fold. */
  function FoldChar(c: char): (r: char)
    ensures IsFolded(r)
    ensures IsFolded(c) ==> r == c
  {
    if IsSimpleUpper(c) then (c as int + 0x20) as char
    else if c == '\U{B5}' then '\U{3BC}'    // micro sign -> Greek small mu
    else c
  }

  /** `s.casefold()`, character by character. The result has the length
      of `s` and consists of characters that folding leaves unchanged. */
  function CaseFold(s: string): (r: string)
    ensures |r| == |s|
    ensures forall i :: 0 <= i < |r| ==> IsFolded(r[i])
  {
    seq(|s|, i requires 0 <= i < |s| => FoldChar(s[i]))
  }

  /** Folding commutes with taking a slice. */
  lemma CaseFoldSlice(s: string, i: int, j: int)
    requires 0 <= i <= j <= |s|
    ensures CaseFold(s)[i..j] == CaseFold(s[i..j])
  {
  }

  /** Folding is idempotent: an already folded string is left unchanged. */
  lemma CaseFoldIdempotent(s: string)
    ensures CaseFold(CaseFold(s)) == CaseFold(s)
  {
  }

  /** `w in s`: some slice of `s` equals `w`, found by trying each start in
      turn. The empty word is in every string; a word longer than `s` is in
      none. */
  predicate Contains(s: string, w: string)
    ensures w == [] ==> Contains(s, w)
    ensures Contains(s, w) ==> |w| <= |s|
    decreases |s|
  {
    |w| <= |s| && (s[..|w|] == w || Contains(s[1..], w))
  }

  /** `w` occurs in `s` starting at index `i`. */
  predicate OccursAt(s: string, w: string, i: int) {
    0 <= i && i + |w| <= |s| && s[i..i + |w|] == w
  }

  lemma {:induction false} ContainsHasOccurrence(s: string, w: string) returns (i: nat)
    requires Contains(s, w)
    ensures OccursAt(s, w, i)
    decreases |s|
  {
    if s[..|w|] == w {
      i := 0;
    } else {
      var j := ContainsHasOccurrence(s[1..], w);
      assert s[1..][j..j + |w|] == s[j + 1..j + 1 + |w|];
      i := j + 1;
    }
  }

  lemma {:induction false} OccurrenceIsContained(s: string, w: string, i: int)
    requires OccursAt(s, w, i)
    ensures Contains(s, w)
    decreases i
  {
    if i > 0 {
      assert s[1..][i - 1..i - 1 + |w|] == s[i..i + |w|];
      OccurrenceIsContained(s[1..], w, i - 1);
    }
  }

  /** The search finds `w` exactly when `w` occurs somewhere in `s`. */
  lemma ContainsIffOccurs(s: string, w: string)
    ensures Contains(s, w) <==> exists i :: OccursAt(s, w, i)
  {
    if Contains(s, w) {
      var i := ContainsHasOccurrence(s, w);
    }
    if i :| OccursAt(s, w, i) {
      OccurrenceIsContained(s, w, i);
    }
  }

  /** Folding preserves containment: a word found in a subject is found,
      folded, in the folded subject. */
  lemma ContainsCaseFold(s: string, w: string)
    requires Contains(s, w)
    ensures Contains(CaseFold(s), CaseFold(w))
  {
    var i := ContainsHasOccurrence(s, w);
    CaseFoldSlice(s, i, i + |w|);
    OccurrenceIsContained(CaseFold(s), CaseFold(w), i);
  }

  /** Every character of a contained word occurs in the string. */
  lemma ContainsChar(s: string, w: string, k: int)
    requires Contains(s, w) && 0 <= k < |w|
    ensures w[k] in s
  {
  }

  /** Between strings of equal length, containment is equality. */
  lemma ContainsSameLength(s: string, w: string)
    requires |s| == |w|
    ensures Contains(s, w) <==> s == w
  {
  }
}
