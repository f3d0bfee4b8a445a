/** Substring tests and `str.split` as the scope values use them. */
module Text {

  predicate StartsWith(s: string, prefix: string)
  {
    |prefix| <= |s| && s[..|prefix|] == prefix
  }

  /** sub occurs in s starting at index i. */
  predicate OccursAt(s: string, sub: string, i: int)
  {
    0 <= i <= |s| - |sub| && s[i..i + |sub|] == sub
  }

  /** Python's `sub in s`. */
  predicate Contains(s: string, sub: string)
  {
    exists i | 0 <= i <= |s| - |sub| :: OccursAt(s, sub, i)
  }

  /**
   * The text of s before the first occurrence of sep (all of s when sep does
   * not occur); this is `(sep + s).split(sep)[1]`.
   */
  function BeforeFirst(s: string, sep: string): (r: string)
    requires sep != []
    ensures r <= s
    ensures !Contains(r, sep)
    ensures r == s || StartsWith(s[|r|..], sep)
    ensures forall i :: 0 <= i < |r| ==> !OccursAt(s, sep, i)
    decreases |s|
  {
    if |s| < |sep| then
      assert !Contains(s, sep);
      s
    else if s[..|sep|] == sep then
      assert !Contains([], sep);
      []
    else
      var rest := BeforeFirst(s[1..], sep);
      var r := [s[0]] + rest;
      assert r <= s by {
        assert s == [s[0]] + s[1..];
      }
      assert !Contains(r, sep) by {
        forall i ensures !OccursAt(r, sep, i) {
          if 0 <= i <= |r| - |sep| {
            if i == 0 {
              assert r[..|sep|] == s[..|sep|];
            } else {
              assert r[i..i + |sep|] == rest[i - 1..i - 1 + |sep|];
              assert !OccursAt(rest, sep, i - 1);
            }
          }
        }
      }
      assert s[|r|..] == s[1..][|rest|..];
      forall i | 1 <= i < |r| ensures !OccursAt(s, sep, i) {
        OccursAfterFirst(s, sep, i);
      }
      r
  }

  /** An occurrence past the first character is an occurrence in the tail. */
  lemma OccursAfterFirst(s: string, sub: string, i: int)
    requires 1 <= i && s != []
    ensures OccursAt(s, sub, i) <==> OccursAt(s[1..], sub, i - 1)
  {
    if i + |sub| <= |s| {
      assert s[1..][i - 1..i - 1 + |sub|] == s[i..i + |sub|];
    }
  }

  /** The text before the first separator is the whole string exactly when the separator does not occur. */
  lemma BeforeFirstIsWholeIff(s: string, sep: string)
    requires sep != []
    ensures BeforeFirst(s, sep) == s <==> !Contains(s, sep)
  {
    var r := BeforeFirst(s, sep);
    if r != s {
      assert OccursAt(s, sep, |r|);
    }
  }
}
