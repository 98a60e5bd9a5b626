/** Small sequence utilities shared by the models: the first-match search that Rust's
    `iter().find`/`iter().position` and the collection's "try each program in order" loops
    perform, and substring search (`str::contains`). */
module Seqs {
  import opened Wrappers

  /** Index of the first element of `s` satisfying `p`. */
  function FirstIndex<T>(s: seq<T>, p: T -> bool): (r: Option<nat>)
    ensures r.Some? ==> r.value < |s| && p(s[r.value])
    ensures r.Some? ==> forall j | 0 <= j < r.value :: !p(s[j])
    ensures r.None? <==> forall j | 0 <= j < |s| :: !p(s[j])
    decreases |s|
  {
    if |s| == 0 then None
    else if p(s[0]) then Some(0)
    else
      match FirstIndex(s[1..], p)
      case None => None
      case Some(k) => Some(k + 1)
  }

  /** `sub` occurs in `s` starting at some position (Rust's `str::contains`). */
  predicate Contains(s: string, sub: string)
    decreases |s|
  {
    |sub| <= |s| && (s[..|sub|] == sub || Contains(s[1..], sub))
  }

  /** `sub` occurs in `s` at position `i`. */
  predicate OccursAt(s: string, sub: string, i: int)
  {
    0 <= i && i + |sub| <= |s| && s[i..i + |sub|] == sub
  }

  /** The search above agrees with the textbook definition of a substring occurrence. */
  lemma {:induction false} ContainsIff(s: string, sub: string)
    ensures Contains(s, sub) <==> exists i :: OccursAt(s, sub, i)
    decreases |s|
  {
    if |sub| <= |s| {
      if s[..|sub|] == sub {
        assert OccursAt(s, sub, 0);
      } else {
        ContainsIff(s[1..], sub);
        if Contains(s[1..], sub) {
          var i :| OccursAt(s[1..], sub, i);
          assert s[i + 1..i + 1 + |sub|] == s[1..][i..i + |sub|];
          assert OccursAt(s, sub, i + 1);
        } else {
          forall i | 0 < i
            ensures !OccursAt(s, sub, i)
          {
            if OccursAt(s, sub, i) {
              OccursLater(s, sub, i);
            }
          }
          assert s[0..|sub|] == s[..|sub|];
        }
      }
    }
  }

  /** An occurrence past the start of `s` is an occurrence in `s[1..]`. */
  lemma OccursLater(s: string, sub: string, i: int)
    requires OccursAt(s, sub, i) && 0 < i
    ensures OccursAt(s[1..], sub, i - 1)
  {
    var later, here := s[1..][i - 1..i - 1 + |sub|], s[i..i + |sub|];
    forall k | 0 <= k < |sub|
      ensures later[k] == here[k]
    {
    }
    assert later == here;
  }
}
