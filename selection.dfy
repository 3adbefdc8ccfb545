/** Which element of a rendered list is the selected one: the comparison
    `idx===i` that the tab buttons, panels, slides and dots all make. */
module Selection {
  /** `idx===k` for every index idx of n elements, as every list of tabs,
      slides and dots renders it. */
  function Marks(k: real, n: nat): (r: seq<bool>)
    ensures |r| == n && forall idx :: 0 <= idx < n ==> r[idx] == (idx as real == k)
  {
    seq(n, idx requires 0 <= idx < n => idx as real == k)
  }

  function CountTrue(s: seq<bool>): nat
  {
    if s == [] then 0 else CountTrue(s[..|s| - 1]) + (if s[|s| - 1] then 1 else 0)
  }

  predicate IsIndex(k: real, n: nat) {
    k.Floor as real == k && 0.0 <= k < n as real
  }

  /** Exactly one element is marked when k is one of the indices, none
      otherwise. */
  lemma {:induction false} MarksCount(k: real, n: nat)
    ensures CountTrue(Marks(k, n)) == if IsIndex(k, n) then 1 else 0
  {
    if n > 0 {
      MarksCount(k, n - 1);
      assert Marks(k, n)[..n - 1] == Marks(k, n - 1);
      if IsIndex(k, n) && k != (n - 1) as real {
        assert k < (n - 1) as real by {
          assert k.Floor < n - 1 || k.Floor == n - 1;
        }
      }
    }
  }

  /** An index of the list marks exactly its own element. */
  lemma OneMarked(k: int, n: nat)
    requires 0 <= k < n
    ensures CountTrue(Marks(k as real, n)) == 1
  {
    MarksCount(k as real, n);
  }
}
