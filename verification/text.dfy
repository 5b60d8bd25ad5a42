/** The string operations the storefront relies on: `String.prototype.trim`,
    `toLowerCase`, `includes` and `slice(-n)`. */
module Text {

  /** JavaScript's WhiteSpace and LineTerminator code points, which `trim` strips. */
  predicate IsWhitespace(c: char) {
    var n := c as int;
    n == 0x09 || n == 0x0A || n == 0x0B || n == 0x0C || n == 0x0D || n == 0x20 ||
    n == 0xA0 || n == 0x1680 || (0x2000 <= n <= 0x200A) || n == 0x2028 || n == 0x2029 ||
    n == 0x202F || n == 0x205F || n == 0x3000 || n == 0xFEFF
  }

  /** Leading whitespace removed. */
  function TrimStart(s: string): (r: string)
    ensures |r| <= |s| && r == s[|s| - |r|..]
    ensures |r| > 0 ==> !IsWhitespace(r[0])
    ensures forall i :: 0 <= i < |s| - |r| ==> IsWhitespace(s[i])
  {
    if |s| > 0 && IsWhitespace(s[0]) then TrimStart(s[1..]) else s
  }

  /** Trailing whitespace removed. */
  function TrimEnd(s: string): (r: string)
    ensures |r| <= |s| && r == s[..|r|]
    ensures |r| > 0 ==> !IsWhitespace(r[|r| - 1])
    ensures forall i :: |r| <= i < |s| ==> IsWhitespace(s[i])
  {
    if |s| > 0 && IsWhitespace(s[|s| - 1]) then TrimEnd(s[..|s| - 1]) else s
  }

  /** `s.trim()`: the infix of `s` left when only whitespace is cut from
      either end, and which neither starts nor ends in whitespace. */
  function Trim(s: string): (r: string)
    ensures |r| > 0 ==> !IsWhitespace(r[0]) && !IsWhitespace(r[|r| - 1])
    ensures Occurs(s, r)
    ensures exists k :: OccursAt(s, r, k) && IsBlank(s[..k]) && IsBlank(s[k + |r|..])
  {
    var t := TrimStart(s);
    var r := TrimEnd(t);
    TrimCutsOnlyBlanks(s, t, r);
    r
  }

  /** When `t` is a suffix of `s` behind whitespace and `r` a prefix of `t`
      before whitespace, `r` sits in `s` between two blank stretches. */
  lemma TrimCutsOnlyBlanks(s: string, t: string, r: string)
    requires |t| <= |s| && t == s[|s| - |t|..]
    requires forall i :: 0 <= i < |s| - |t| ==> IsWhitespace(s[i])
    requires |r| <= |t| && r == t[..|r|]
    requires forall i :: |r| <= i < |t| ==> IsWhitespace(t[i])
    ensures OccursAt(s, r, |s| - |t|)
    ensures IsBlank(s[..|s| - |t|]) && IsBlank(s[|s| - |t| + |r|..])
  {
    var k := |s| - |t|;
    assert s[k..k + |r|] == r;
    var front, back := s[..k], s[k + |r|..];
    assert IsBlank(front) by {
      forall i | 0 <= i < |front| ensures IsWhitespace(front[i]) {
        assert front[i] == s[i];
      }
    }
    assert IsBlank(back) by {
      forall i | 0 <= i < |back| ensures IsWhitespace(back[i]) {
        assert back[i] == t[|r| + i];
      }
    }
  }

  /** `!s.trim()`: nothing but whitespace, so that trimming leaves the
      empty string (`TrimLeavesNothingIffBlank`). */
  predicate IsBlank(s: string) {
    forall i :: 0 <= i < |s| ==> IsWhitespace(s[i])
  }

  /** `trim` leaves the empty string exactly when every character is whitespace. */
  lemma TrimLeavesNothingIffBlank(s: string)
    ensures |Trim(s)| == 0 <==> IsBlank(s)
  {
    var t := TrimStart(s);
    if !IsBlank(s) {
      var i :| 0 <= i < |s| && !IsWhitespace(s[i]);
      assert |t| > 0;
      assert !IsWhitespace(t[0]);
      assert |TrimEnd(t)| > 0;
    }
  }

  /** `toLowerCase` restricted to ASCII letters. */
  function LowerChar(c: char): (r: char)
    ensures 'A' <= c <= 'Z' ==> 'a' <= r <= 'z' && r as int - c as int == 32
    ensures !('A' <= c <= 'Z') ==> r == c
  {
    if 'A' <= c <= 'Z' then (c as int + 32) as char else c
  }

  function Lower(s: string): (r: string)
    ensures |r| == |s|
    ensures forall i :: 0 <= i < |s| ==> r[i] == LowerChar(s[i])
  {
    if |s| == 0 then [] else [LowerChar(s[0])] + Lower(s[1..])
  }

  /** `haystack.includes(needle)`, computed by scanning start positions. */
  function Includes(haystack: string, needle: string): bool
    decreases |haystack|
  {
    (|needle| <= |haystack| && haystack[..|needle|] == needle) ||
    (|haystack| > 0 && Includes(haystack[1..], needle))
  }

  /** The definition of substring occurrence that `Includes` computes. */
  ghost predicate OccursAt(haystack: string, needle: string, i: int) {
    0 <= i && i + |needle| <= |haystack| && haystack[i..i + |needle|] == needle
  }

  /** `needle` occurs somewhere in `haystack`. */
  ghost predicate Occurs(haystack: string, needle: string) {
    exists i :: OccursAt(haystack, needle, i)
  }

  lemma {:induction false} IncludesIffOccurs(haystack: string, needle: string)
    ensures Includes(haystack, needle) <==> Occurs(haystack, needle)
    decreases |haystack|
  {
    if |needle| <= |haystack| && haystack[..|needle|] == needle {
      assert OccursAt(haystack, needle, 0);
    }
    if |haystack| > 0 {
      IncludesIffOccurs(haystack[1..], needle);
      if exists i :: OccursAt(haystack[1..], needle, i) {
        var i :| OccursAt(haystack[1..], needle, i);
        assert haystack[1..][i..i + |needle|] == haystack[i + 1..i + 1 + |needle|];
        assert OccursAt(haystack, needle, i + 1);
      }
      if exists i :: OccursAt(haystack, needle, i) {
        var i :| OccursAt(haystack, needle, i);
        if i > 0 {
          assert haystack[1..][i - 1..i - 1 + |needle|] == haystack[i..i + |needle|];
          assert OccursAt(haystack[1..], needle, i - 1);
        }
      }
    } else {
      if exists i :: OccursAt(haystack, needle, i) {
        var i :| OccursAt(haystack, needle, i);
        assert |needle| == 0;
      }
    }
  }

  /** The empty string occurs in every string, as with JavaScript's `"abc".includes("")`. */
  lemma IncludesEmpty(haystack: string)
    ensures Includes(haystack, "")
  {
  }

  /** `s.slice(-n)` for `n > 0`: the last `n` characters, or all of `s` when shorter. */
  function SliceLast(s: string, n: nat): (r: string)
    requires n > 0
    ensures |r| == if |s| < n then |s| else n
    ensures r == s[|s| - |r|..]
  {
    if |s| < n then s else s[|s| - n..]
  }
}
