/** Ordinal, case-sensitive substring search, as `string.Contains` performs it. */
module Strings {

  predicate IsPrefix(p: string, s: string) {
    |p| <= |s| && p == s[..|p|]
  }

  /** `sub` occurs somewhere in `s`; the empty string occurs everywhere. */
  predicate Contains(s: string, sub: string)
    decreases |s|
  {
    IsPrefix(sub, s) || (|s| > 0 && Contains(s[1..], sub))
  }

  /** `sub` occurs in `s` starting at position `i`. */
  predicate OccursAt(s: string, sub: string, i: int) {
    0 <= i && i + |sub| <= |s| && s[i..i + |sub|] == sub
  }

  /** `Contains` finds exactly the occurrences there are. */
  lemma {:induction false} ContainsIffOccurs(s: string, sub: string)
    ensures Contains(s, sub) <==> exists i :: OccursAt(s, sub, i)
    decreases |s|
  {
    if IsPrefix(sub, s) {
      assert OccursAt(s, sub, 0);
    }
    if |s| == 0 {
      if exists i :: OccursAt(s, sub, i) {
        var i :| OccursAt(s, sub, i);
        assert IsPrefix(sub, s);
      }
    } else {
      var tail := s[1..];
      ContainsIffOccurs(tail, sub);
      if Contains(tail, sub) {
        var i :| OccursAt(tail, sub, i);
        assert tail[i..i + |sub|] == s[i + 1..i + 1 + |sub|];
        assert OccursAt(s, sub, i + 1);
      }
      if exists i :: OccursAt(s, sub, i) {
        var i :| OccursAt(s, sub, i);
        if i == 0 {
          assert IsPrefix(sub, s);
        } else {
          assert tail[i - 1..i - 1 + |sub|] == s[i..i + |sub|];
          assert OccursAt(tail, sub, i - 1);
        }
      }
    }
  }

  /** A one-character string contains a one-character string exactly when the
      two characters are equal (the comparison is ordinal: no case folding). */
  lemma {:induction false} ContainsOneChar(x: char, y: char)
    ensures Contains([x], [y]) <==> x == y
  {
    ContainsIffOccurs([x], [y]);
    if x == y {
      assert OccursAt([x], [y], 0);
    } else {
      forall i | 0 <= i <= 0 ensures !OccursAt([x], [y], i) {
        assert [x][i..i + 1] == [x];
      }
    }
  }
}
