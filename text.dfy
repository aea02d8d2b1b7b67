/** The string operations the page uses: `toLowerCase` (restricted to ASCII
    letters), `includes`, and `trim`. */
module Text {

  /** `toLowerCase` on one character, for the ASCII letters A-Z. */
  function LowerChar(c: char): (r: char)
    ensures !('A' <= r <= 'Z')
    ensures 'A' <= c <= 'Z' ==> r as int == c as int + 32
    ensures !('A' <= c <= 'Z') ==> r == c
  {
    if 'A' <= c <= 'Z' then (c as int + 32) as char else c
  }

  /** `c` and `d` are the same character, or the same ASCII letter in the two cases. */
  predicate SameIgnoringCase(c: char, d: char)
  {
    c == d ||
    ('A' <= c <= 'Z' && d as int == c as int + 32) ||
    ('A' <= d <= 'Z' && c as int == d as int + 32)
  }

  /** Two characters lower alike exactly when they differ at most in ASCII case. */
  lemma LowerCharEq(c: char, d: char)
    ensures LowerChar(c) == LowerChar(d) <==> SameIgnoringCase(c, d)
  {
  }

  /** `s.toLowerCase()`. */
  function Lower(s: string): (r: string)
    ensures |r| == |s|
    ensures forall i :: 0 <= i < |s| ==> r[i] == LowerChar(s[i])
  {
    if s == [] then [] else [LowerChar(s[0])] + Lower(s[1..])
  }

  /** Two strings lower alike exactly when they have the same length and
      differ at most in the case of ASCII letters. */
  lemma LowerEq(s: string, t: string)
    ensures Lower(s) == Lower(t) <==>
      |s| == |t| && forall i :: 0 <= i < |s| ==> SameIgnoringCase(s[i], t[i])
  {
    if Lower(s) == Lower(t) {
      LowerEqPointwise(s, t);
    }
    if |s| == |t| && forall i :: 0 <= i < |s| ==> SameIgnoringCase(s[i], t[i]) {
      PointwiseLowerEq(s, t);
    }
  }

  lemma LowerEqPointwise(s: string, t: string)
    requires Lower(s) == Lower(t)
    ensures |s| == |t| && forall i :: 0 <= i < |s| ==> SameIgnoringCase(s[i], t[i])
  {
    forall i | 0 <= i < |s|
      ensures SameIgnoringCase(s[i], t[i])
    {
      assert LowerChar(s[i]) == Lower(s)[i] == Lower(t)[i] == LowerChar(t[i]);
      LowerCharEq(s[i], t[i]);
    }
  }

  lemma PointwiseLowerEq(s: string, t: string)
    requires |s| == |t| && forall i :: 0 <= i < |s| ==> SameIgnoringCase(s[i], t[i])
    ensures Lower(s) == Lower(t)
  {
    forall i | 0 <= i < |s|
      ensures Lower(s)[i] == Lower(t)[i]
    {
      LowerCharEq(s[i], t[i]);
    }
  }

  /** Lowering twice is lowering once. */
  lemma LowerIdempotent(s: string)
    ensures Lower(Lower(s)) == Lower(s)
  {
  }

  /** `sub` occurs in `s` starting at index `i`. */
  predicate OccursAt(s: string, sub: string, i: nat)
  {
    i + |sub| <= |s| && s[i..i + |sub|] == sub
  }

  /** `s.includes(sub)`: try each start position from the left. */
  predicate Includes(s: string, sub: string)
    ensures sub == "" ==> Includes(s, sub)
    ensures Includes(s, sub) ==> |sub| <= |s|
    decreases |s|
  {
    OccursAt(s, sub, 0) || (|s| > 0 && Includes(s[1..], sub))
  }

  /** `includes` holds exactly when `sub` occurs at some index of `s`. */
  lemma {:induction false} IncludesIff(s: string, sub: string)
    ensures Includes(s, sub) <==> exists i: nat :: OccursAt(s, sub, i)
  {
    if Includes(s, sub) {
      if !OccursAt(s, sub, 0) {
        IncludesIff(s[1..], sub);
        var i: nat :| OccursAt(s[1..], sub, i);
        assert s[1..][i..i + |sub|] == s[i + 1..i + 1 + |sub|];
        assert OccursAt(s, sub, i + 1);
      }
    } else {
      forall i: nat
        ensures !OccursAt(s, sub, i)
      {
        IncludesNowhere(s, sub, i);
      }
    }
  }

  lemma {:induction false} IncludesNowhere(s: string, sub: string, i: nat)
    requires !Includes(s, sub)
    ensures !OccursAt(s, sub, i)
    decreases |s|
  {
    if i > 0 && |s| > 0 {
      IncludesNowhere(s[1..], sub, i - 1);
      if i + |sub| <= |s| {
        assert s[1..][i - 1..i - 1 + |sub|] == s[i..i + |sub|];
      }
    }
  }

  /** Every string includes the empty string. */
  lemma IncludesEmpty(s: string)
    ensures Includes(s, "")
  {
    assert OccursAt(s, "", 0);
  }

  /** The characters `trim` removes: ECMAScript WhiteSpace and LineTerminator. */
  predicate IsSpace(c: char)
    ensures c as int < 0x80 ==> (IsSpace(c) <==> c == ' ' || '\t' <= c <= '\r')
    ensures IsSpace(c) ==> !('0' <= c <= '9' || 'A' <= c <= 'Z' || 'a' <= c <= 'z')
  {
    c == '\t' || c == '\n' || c == '\U{B}' || c == '\U{C}' || c == '\r' ||
    c == ' ' || c == '\U{A0}' || c == '\U{1680}' ||
    ('\U{2000}' <= c <= '\U{200A}') ||
    c == '\U{2028}' || c == '\U{2029}' || c == '\U{202F}' || c == '\U{205F}' ||
    c == '\U{3000}' || c == '\U{FEFF}'
  }

  /** Every character of `s` is white space (vacuously so for ""). */
  predicate IsBlank(s: string)
  {
    forall i :: 0 <= i < |s| ==> IsSpace(s[i])
  }

  /** Leading white space removed: what remains is a suffix of `s` that does
      not start with white space, and what was cut off is blank. */
  function TrimStart(s: string): (r: string)
    ensures |r| <= |s| && r == s[|s| - |r|..]
    ensures IsBlank(s[..|s| - |r|])
    ensures r == [] || !IsSpace(r[0])
  {
    if s != [] && IsSpace(s[0]) then TrimStart(s[1..]) else s
  }

  /** Trailing white space removed: what remains is a prefix of `s` that does
      not end with white space, and what was cut off is blank. */
  function TrimEnd(s: string): (r: string)
    ensures |r| <= |s| && r == s[..|r|]
    ensures IsBlank(s[|r|..])
    ensures r == [] || !IsSpace(r[|r| - 1])
  {
    if s != [] && IsSpace(s[|s| - 1]) then TrimEnd(s[..|s| - 1]) else s
  }

  /** `s[a..b]` is `s` with a blank start `s[..a]` and a blank end `s[b..]` cut off. */
  predicate CutsBlankEnds(s: string, a: nat, b: nat)
  {
    a <= b <= |s| && IsBlank(s[..a]) && IsBlank(s[b..])
  }

  /** `s.trim()`: `s` with blank ends cut off, leaving either "" (exactly when
      `s` is blank) or a string that starts and ends with a non-space. */
  function Trim(s: string): (r: string)
    ensures exists a: nat, b: nat {:trigger CutsBlankEnds(s, a, b)} :: CutsBlankEnds(s, a, b) && r == s[a..b]
    ensures r == [] <==> IsBlank(s)
    ensures r == [] || (!IsSpace(r[0]) && !IsSpace(r[|r| - 1]))
  {
    TrimSliceExists(s);
    TrimEmpty(s);
    TrimEnd(TrimStart(s))
  }

  lemma TrimSliceExists(s: string)
    ensures exists a: nat, b: nat {:trigger CutsBlankEnds(s, a, b)} :: CutsBlankEnds(s, a, b) && TrimEnd(TrimStart(s)) == s[a..b]
  {
    var u := TrimStart(s);
    var r := TrimEnd(u);
    CutTwice(s, |s| - |u|, u, r);
    assert CutsBlankEnds(s, |s| - |u|, |s| - |u| + |r|);
  }

  /** Cutting a blank start off `s`, then a blank end off what remains, cuts
      blank ends off `s`. */
  lemma CutTwice(s: string, a: nat, u: string, r: string)
    requires a <= |s| && u == s[a..] && IsBlank(s[..a])
    requires |r| <= |u| && r == u[..|r|] && IsBlank(u[|r|..])
    ensures CutsBlankEnds(s, a, a + |r|) && r == s[a..a + |r|]
  {
    assert u[|r|..] == s[a + |r|..];
    assert u[..|r|] == s[a..a + |r|];
  }

  lemma TrimEmpty(s: string)
    ensures TrimEnd(TrimStart(s)) == [] <==> IsBlank(s)
    ensures TrimEnd(TrimStart(s)) == [] || !IsSpace(TrimEnd(TrimStart(s))[0])
  {
    var u := TrimStart(s);
    var r := TrimEnd(u);
    var a := |s| - |u|;
    if r == [] {
      assert u[|r|..] == u;
      BlankSplit(s, a);
    } else {
      assert r[0] == u[0] == s[a];
    }
  }

  /** A string whose two halves are blank is blank. */
  lemma BlankSplit(s: string, a: nat)
    requires a <= |s| && IsBlank(s[..a]) && IsBlank(s[a..])
    ensures IsBlank(s)
  {
    forall i | 0 <= i < |s|
      ensures IsSpace(s[i])
    {
      if i < a { assert s[i] == s[..a][i]; } else { assert s[i] == s[a..][i - a]; }
    }
  }
}
