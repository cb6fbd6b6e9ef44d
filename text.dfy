/** Substring search as Kotlin's `String.contains` performs it. */
module Text {

  /** `sub` occurs in `s` starting at offset `i`. */
  predicate OccursAt(s: string, sub: string, i: int) {
    0 <= i <= |s| - |sub| && s[i..i + |sub|] == sub
  }

  /** `s.contains(sub)`: `sub` occurs in `s` at some offset (the empty string occurs everywhere). */
  predicate Contains(s: string, sub: string) {
    exists i :: 0 <= i <= |s| - |sub| && OccursAt(s, sub, i)
  }

  /**
   * `s.indexOf(sub, from)`: the scan Kotlin's `contains` runs, trying each
   * offset from `from` on; -1 when no offset matches.
   */
  function IndexOf(s: string, sub: string, from: nat): int
    decreases |s| - from
  {
    if from + |sub| > |s| then -1
    else if s[from..from + |sub|] == sub then from
    else IndexOf(s, sub, from + 1)
  }

  /** The scan finds the first matching offset at or after `from`, and -1 only when there is none. */
  lemma {:induction false} IndexOfIsFirst(s: string, sub: string, from: nat)
    ensures var r := IndexOf(s, sub, from);
      (r == -1 <==> forall i :: from <= i ==> !OccursAt(s, sub, i)) &&
      (r != -1 ==> from <= r && OccursAt(s, sub, r) && forall i :: from <= i < r ==> !OccursAt(s, sub, i))
    decreases |s| - from
  {
    if from + |sub| <= |s| && s[from..from + |sub|] != sub {
      IndexOfIsFirst(s, sub, from + 1);
      assert !OccursAt(s, sub, from);
      if IndexOf(s, sub, from + 1) == -1 {
        forall i | from <= i
          ensures !OccursAt(s, sub, i)
        {
          if i != from {
            assert from + 1 <= i;
          }
        }
      }
    } else if from + |sub| <= |s| {
      assert OccursAt(s, sub, from);
    }
  }

  /** `contains` holds exactly when the scan from offset 0 finds a match. */
  lemma ContainsIsIndexOf(s: string, sub: string)
    ensures Contains(s, sub) <==> IndexOf(s, sub, 0) >= 0
  {
    IndexOfIsFirst(s, sub, 0);
    if IndexOf(s, sub, 0) >= 0 {
      assert OccursAt(s, sub, IndexOf(s, sub, 0));
    }
  }

  /** A string that contains `sub` contains each of its characters. */
  lemma ContainsHasChars(s: string, sub: string, k: nat)
    requires Contains(s, sub) && k < |sub|
    ensures sub[k] in s
  {
    var i :| 0 <= i <= |s| - |sub| && OccursAt(s, sub, i);
    assert s[i..i + |sub|][k] == s[i + k];
  }

  /**
   * A pattern without the separator `c` found in `a + [c] + b` lies wholly in
   * `a` or wholly in `b`: it cannot straddle the separator.
   */
  lemma ContainsAcrossSeparator(a: string, c: char, b: string, sub: string)
    requires c !in sub && Contains(a + [c] + b, sub)
    ensures Contains(a, sub) || Contains(b, sub)
  {
    var s := a + [c] + b;
    var i :| 0 <= i <= |s| - |sub| && OccursAt(s, sub, i);
    forall k | i <= k < i + |sub|
      ensures s[k] != c
    {
      assert s[k] == s[i..i + |sub|][k - i];
    }
    assert s[|a|] == c;
    if i + |sub| <= |a| {
      assert a[i..i + |sub|] == s[i..i + |sub|];
      assert OccursAt(a, sub, i);
    } else {
      // The occurrence cannot cover offset |a|, which holds the separator.
      assert |a| < i;
      var j := i - |a| - 1;
      assert b[j..j + |sub|] == s[i..i + |sub|];
      assert OccursAt(b, sub, j);
    }
  }
}
