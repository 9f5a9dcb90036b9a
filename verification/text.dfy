/** The few `java.lang.String` operations the services rely on:
    `isBlank`, case folding, `contains` and `equalsIgnoreCase`. */
module Text {

  /** `Character.isWhitespace`: the ASCII controls 9-13 and 28-31, and the
      Unicode space, line and paragraph separators except the no-break ones. */
  predicate IsWhitespace(c: char) {
    var n := c as int;
    || n == 0x20 || 0x09 <= n <= 0x0D || 0x1C <= n <= 0x1F
    || n == 0x1680 || (0x2000 <= n <= 0x200A && n != 0x2007)
    || n == 0x2028 || n == 0x2029 || n == 0x205F || n == 0x3000
  }

  /** `String.isBlank`: empty, or white space only. */
  predicate IsBlank(s: string) {
    forall i :: 0 <= i < |s| ==> IsWhitespace(s[i])
  }

  function LowerChar(c: char): char {
    if 'A' <= c <= 'Z' then (c as int + 32) as char else c
  }

  function UpperChar(c: char): char {
    if 'a' <= c <= 'z' then (c as int - 32) as char else c
  }

  /** `toLowerCase` on the ASCII letters. */
  function Lower(s: string): (r: string)
    ensures |r| == |s|
    ensures forall i :: 0 <= i < |s| ==> r[i] == LowerChar(s[i])
  {
    seq(|s|, i requires 0 <= i < |s| => LowerChar(s[i]))
  }

  /** SQL `UPPER` on the ASCII letters. */
  function Upper(s: string): (r: string)
    ensures |r| == |s|
    ensures forall i :: 0 <= i < |s| ==> r[i] == UpperChar(s[i])
  {
    seq(|s|, i requires 0 <= i < |s| => UpperChar(s[i]))
  }

  /** `pat` occurs in `text` starting at offset `i`. */
  predicate OccursAt(text: string, pat: string, i: int) {
    0 <= i && i + |pat| <= |text| && text[i..i + |pat|] == pat
  }

  /** `String.contains`, and SQL `LIKE '%pat%'` without wildcards in `pat`. */
  predicate Contains(text: string, pat: string) {
    exists i :: 0 <= i <= |text| - |pat| && OccursAt(text, pat, i)
  }

  /** One step of `String.equalsIgnoreCase`: equal, or equal after
      upper-casing, or equal after lower-casing. */
  predicate CharEqualsIgnoreCase(a: char, b: char) {
    a == b || UpperChar(a) == UpperChar(b) || LowerChar(a) == LowerChar(b)
  }

  /** `String.equalsIgnoreCase` (a non-null argument). */
  predicate EqualsIgnoreCase(a: string, b: string) {
    |a| == |b| && forall i :: 0 <= i < |a| ==> CharEqualsIgnoreCase(a[i], b[i])
  }

  lemma CharFoldsAgree(a: char, b: char)
    ensures CharEqualsIgnoreCase(a, b) <==> LowerChar(a) == LowerChar(b)
    ensures UpperChar(a) == UpperChar(b) <==> LowerChar(a) == LowerChar(b)
  {
  }

  /** Ignoring case is comparing lower-cased copies, so it is an equivalence. */
  lemma EqualsIgnoreCaseIsLowerEquality(a: string, b: string)
    ensures EqualsIgnoreCase(a, b) <==> Lower(a) == Lower(b)
  {
    if |a| == |b| {
      forall i | 0 <= i < |a|
        ensures CharEqualsIgnoreCase(a[i], b[i]) <==> Lower(a)[i] == Lower(b)[i]
      {
        CharFoldsAgree(a[i], b[i]);
      }
      if Lower(a) == Lower(b) {
        assert forall i :: 0 <= i < |a| ==> Lower(a)[i] == Lower(b)[i];
      }
    }
  }

  lemma OccursAtFolded(text: string, pat: string, i: int)
    ensures OccursAt(Upper(text), Upper(pat), i) <==> OccursAt(Lower(text), Lower(pat), i)
  {
    if 0 <= i && i + |pat| <= |text| {
      var n := |pat|;
      forall k | 0 <= k < n
        ensures Upper(text)[i + k] == Upper(pat)[k] <==> Lower(text)[i + k] == Lower(pat)[k]
      {
        CharFoldsAgree(text[i + k], pat[k]);
      }
      if OccursAt(Upper(text), Upper(pat), i) {
        forall k | 0 <= k < n ensures Lower(text)[i + k] == Lower(pat)[k] {
          assert Upper(text)[i..i + n][k] == Upper(pat)[k];
        }
        assert Lower(text)[i..i + n] == Lower(pat);
      }
      if OccursAt(Lower(text), Lower(pat), i) {
        forall k | 0 <= k < n ensures Upper(text)[i + k] == Upper(pat)[k] {
          assert Lower(text)[i..i + n][k] == Lower(pat)[k];
        }
        assert Upper(text)[i..i + n] == Upper(pat);
      }
    }
  }

  /** The database search upper-cases both sides and the in-memory store
      lower-cases them; on ASCII letters the two tests agree. */
  lemma UpperAndLowerSearchAgree(text: string, pat: string)
    ensures Contains(Upper(text), Upper(pat)) <==> Contains(Lower(text), Lower(pat))
  {
    if Contains(Upper(text), Upper(pat)) {
      var i :| 0 <= i <= |text| - |pat| && OccursAt(Upper(text), Upper(pat), i);
      OccursAtFolded(text, pat, i);
    }
    if Contains(Lower(text), Lower(pat)) {
      var i :| 0 <= i <= |text| - |pat| && OccursAt(Lower(text), Lower(pat), i);
      OccursAtFolded(text, pat, i);
    }
  }
}
