/**
 * The two string operations the catalog search relies on: lowering the case
 * of a string and the substring test of `String.prototype.includes`.
 * Lowering is the ASCII stand-in for `toLowerCase`: 'A'..'Z' become
 * 'a'..'z' and every other character is left alone.
 */
module Text {

  /** Lowers one character (ASCII letters only). */
  function Lower(c: char): (r: char)
    ensures 'A' <= c <= 'Z' ==> r as int == c as int + 32
    ensures !('A' <= r <= 'Z')
    ensures !('A' <= c <= 'Z') ==> r == c
    ensures ('a' <= r <= 'z') <==> ('a' <= c <= 'z' || 'A' <= c <= 'Z')
  {
    if 'A' <= c <= 'Z' then (c as int - 'A' as int + 'a' as int) as char else c
  }

  /**
   * Two characters that are equal but for case: the same character, or an
   * upper-case ASCII letter and its lower-case partner, 32 code points on.
   */
  predicate SameIgnoringCase(c: char, d: char)
  {
    c == d
    || ('A' <= c <= 'Z' && d as int == c as int + 32)
    || ('A' <= d <= 'Z' && c as int == d as int + 32)
  }

  /** Lowering identifies exactly the characters that are equal but for case. */
  lemma LowerSameIgnoringCase(c: char, d: char)
    ensures Lower(c) == Lower(d) <==> SameIgnoringCase(c, d)
  {
  }

  /** Lowers every character of `s`, one by one. */
  function LowerStr(s: string): (r: string)
    ensures |r| == |s|
    ensures forall i :: 0 <= i < |s| ==> r[i] == Lower(s[i])
  {
    if s == [] then [] else [Lower(s[0])] + LowerStr(s[1..])
  }

  /** `sub` occurs in `s` starting at position `i`. */
  predicate OccursAt(s: string, sub: string, i: int)
  {
    0 <= i && i + |sub| <= |s| && s[i..i + |sub|] == sub
  }

  /** `s.includes(sub)`: `sub` occurs in `s` at some position. */
  predicate Contains(s: string, sub: string)
    ensures Contains(s, sub) ==> |sub| <= |s|
    ensures |sub| == |s| ==> (Contains(s, sub) <==> s == sub)
  {
    assert s[0..|s|] == s && (s == sub ==> OccursAt(s, sub, 0));
    exists i | 0 <= i <= |s| - |sub| :: OccursAt(s, sub, i)
  }

  /**
   * Two strings lower to the same string exactly when they have the same
   * length and agree position by position but for case.
   */
  lemma LowerStrSameIgnoringCase(s: string, t: string)
    ensures LowerStr(s) == LowerStr(t)
        <==> |s| == |t| && forall i :: 0 <= i < |s| ==> SameIgnoringCase(s[i], t[i])
  {
    if LowerStr(s) == LowerStr(t) {
      forall i | 0 <= i < |s|
        ensures SameIgnoringCase(s[i], t[i])
      {
        assert LowerStr(s)[i] == LowerStr(t)[i];
        LowerSameIgnoringCase(s[i], t[i]);
      }
    }
    if |s| == |t| && forall i :: 0 <= i < |s| ==> SameIgnoringCase(s[i], t[i]) {
      forall i | 0 <= i < |s|
        ensures LowerStr(s)[i] == LowerStr(t)[i]
      {
        LowerSameIgnoringCase(s[i], t[i]);
      }
    }
  }

  /** Lowering a lowered string changes nothing. */
  lemma LowerStrIdempotent(s: string)
    ensures LowerStr(LowerStr(s)) == LowerStr(s)
  {
  }

  /** Lowering commutes with taking a slice. */
  lemma LowerStrSlice(s: string, i: int, j: int)
    requires 0 <= i <= j <= |s|
    ensures LowerStr(s[i..j]) == LowerStr(s)[i..j]
  {
  }

  /** As in JavaScript, every string includes the empty string. */
  lemma ContainsEmpty(s: string)
    ensures Contains(s, "")
  {
    assert OccursAt(s, "", 0);
  }

  /** A substring of a substring is a substring. */
  lemma ContainsTransitive(s: string, t: string, u: string)
    requires Contains(s, t) && Contains(t, u)
    ensures Contains(s, u)
  {
    var i :| 0 <= i <= |s| - |t| && OccursAt(s, t, i);
    var j :| 0 <= j <= |t| - |u| && OccursAt(t, u, j);
    forall k | 0 <= k < |u|
      ensures s[i + j..i + j + |u|][k] == u[k]
    {
      assert s[i..i + |t|][j + k] == t[j + k];
    }
    assert OccursAt(s, u, i + j);
  }

  /** A substring stays a substring once both strings are lowered. */
  lemma ContainsLower(s: string, sub: string)
    requires Contains(s, sub)
    ensures Contains(LowerStr(s), LowerStr(sub))
  {
    var i :| 0 <= i <= |s| - |sub| && OccursAt(s, sub, i);
    LowerStrSlice(s, i, i + |sub|);
    assert OccursAt(LowerStr(s), LowerStr(sub), i);
  }

  /** A string without upper-case letters is its own lowering. */
  lemma LowerStrOfLower(s: string)
    requires forall i :: 0 <= i < |s| ==> !('A' <= s[i] <= 'Z')
    ensures LowerStr(s) == s
  {
  }

  /** Lowering produces `lower` only from `lower` itself or from `upper`. */
  lemma LowerAvoids(s: string, lower: char, upper: char)
    requires 'a' <= lower <= 'z' && upper as int == lower as int - 32
    requires lower !in s && upper !in s
    ensures lower !in LowerStr(s)
  {
    forall i | 0 <= i < |s|
      ensures LowerStr(s)[i] != lower
    {
      assert s[i] != lower && s[i] != upper;
    }
  }

  /** A string that lacks one character of `sub` does not include `sub`. */
  lemma NotContainsChar(s: string, sub: string, k: int)
    requires 0 <= k < |sub| && sub[k] !in s
    ensures !Contains(s, sub)
  {
    forall i | 0 <= i <= |s| - |sub|
      ensures !OccursAt(s, sub, i)
    {
      assert s[i..i + |sub|][k] == s[i + k];
    }
  }

  /**
   * A string in which one letter of `sub` occurs in neither case does not
   * include `sub` once lowered.
   */
  lemma LoweredLacks(s: string, sub: string, k: int, upper: char)
    requires 0 <= k < |sub| && 'a' <= sub[k] <= 'z' && upper as int == sub[k] as int - 32
    requires sub[k] !in s && upper !in s
    ensures !Contains(LowerStr(s), sub)
  {
    LowerAvoids(s, sub[k], upper);
    NotContainsChar(LowerStr(s), sub, k);
  }
}
