/** Sizes of finite sets. */
module Sets {
  lemma {:induction false} SubsetSize<X>(a: set<X>, b: set<X>)
    requires a <= b
    ensures |a| <= |b|
  {
    if a != {} {
      var x :| x in a;
      SubsetSize(a - {x}, b - {x});
    }
  }

  /** The numbers below m. */
  ghost function Below(m: nat): (r: set<nat>)
    ensures |r| == m && forall x: nat :: x in r <==> x < m
  {
    if m == 0 then {} else Below(m - 1) + {m - 1}
  }

  ghost predicate Distinct<X>(s: seq<X>) {
    forall i, j | 0 <= i < j < |s| :: s[i] != s[j]
  }

  /** Distinct numbers below m that miss one of them are fewer than m. */
  lemma Pigeonhole(s: seq<nat>, hole: nat, m: nat)
    requires hole < m && hole !in s && Distinct(s) && forall i | 0 <= i < |s| :: s[i] < m
    ensures |s| < m
  {
    var used := set i | 0 <= i < |s| :: s[i];
    DistinctSize(s);
    assert used <= Below(m) - {hole};
    SubsetSize(used, Below(m) - {hole});
  }

  lemma {:induction false} DistinctSize(s: seq<nat>)
    requires Distinct(s)
    ensures |set i | 0 <= i < |s| :: s[i]| == |s|
  {
    if s != [] {
      var init, last := s[..|s| - 1], s[|s| - 1];
      DistinctSize(init);
      var rest := set i | 0 <= i < |init| :: init[i];
      assert (set i | 0 <= i < |s| :: s[i]) == rest + {last} by {
        assert forall i | 0 <= i < |init| :: s[i] == init[i];
      }
    }
  }
}
