/** Case-sensitive substring search, the meaning of Python's `needle in haystack`
    on two `str` values. */
module TextMatch {

  /** `p` occurs in `s` starting at index `i`. */
  predicate OccursAt(s: string, p: string, i: int)
  {
    0 <= i && i + |p| <= |s| && s[i..i + |p|] == p
  }

  /** `p in s`: true exactly when `p` occurs somewhere in `s`
      (the empty string occurs in every string). */
  function Contains(s: string, p: string): (r: bool)
    ensures r <==> exists i :: OccursAt(s, p, i)
    decreases |s|
  {
    if |s| < |p| then
      assert forall i :: !OccursAt(s, p, i);
      false
    else if s[..|p|] == p then
      assert OccursAt(s, p, 0);
      true
    else
      var rest := Contains(s[1..], p);
      assert forall i :: OccursAt(s[1..], p, i) ==> OccursAt(s, p, i + 1) by {
        forall i | OccursAt(s[1..], p, i) ensures OccursAt(s, p, i + 1) {
          assert s[1..][i..i + |p|] == s[i + 1..i + 1 + |p|];
        }
      }
      assert forall i :: OccursAt(s, p, i) && i > 0 ==> OccursAt(s[1..], p, i - 1) by {
        forall i | OccursAt(s, p, i) && i > 0 ensures OccursAt(s[1..], p, i - 1) {
          assert s[1..][i - 1..i - 1 + |p|] == s[i..i + |p|];
        }
      }
      rest
  }

  /** An occurrence of `q` that itself contains `p` at offset `k` gives an
      occurrence of `p`. */
  lemma ContainsTransitive(s: string, q: string, p: string, k: nat)
    requires OccursAt(q, p, k)
    requires Contains(s, q)
    ensures Contains(s, p)
  {
    var i :| OccursAt(s, q, i);
    assert s[i + k..i + k + |p|] == p by {
      forall j | 0 <= j < |p| ensures s[i + k + j] == p[j] {
        assert s[i + k + j] == s[i..i + |q|][k + j] == q[k + j] == q[k..k + |p|][j];
      }
    }
    assert OccursAt(s, p, i + k);
  }

  /** A non-empty pattern whose first character never appears in `s` does not occur in `s`. */
  lemma AbsentFirstChar(s: string, p: string)
    requires |p| > 0 && p[0] !in s
    ensures !Contains(s, p)
  {
  }
}
