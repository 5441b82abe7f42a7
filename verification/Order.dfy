/** Which positions of a sequence something was taken from, and in which order. */
module Order {

  /** `at` lists exactly the chosen positions, in ascending order. */
  ghost predicate Lists(at: seq<nat>, chosen: set<nat>) {
    && (forall i, j :: 0 <= i < j < |at| ==> at[i] < at[j])
    && (forall p :: p in at <==> p in chosen)
  }

  lemma ListsSnoc(at: seq<nat>, chosen: set<nat>, n: nat)
    requires Lists(at, chosen) && forall p :: p in chosen ==> p < n
    ensures Lists(at + [n], chosen + {n})
  {
    forall i, j | 0 <= i < j < |at + [n]| ensures (at + [n])[i] < (at + [n])[j] {
      assert at[i] in at;
    }
  }

  /** Ascending positions are listed once each. */
  lemma {:induction false} ListsSize(at: seq<nat>, chosen: set<nat>)
    requires Lists(at, chosen)
    ensures |at| == |chosen|
  {
    if at == [] {
      assert chosen == {};
    } else {
      var n := |at| - 1;
      assert at == at[..n] + [at[n]];
      forall p ensures p in at[..n] <==> p in chosen - {at[n]} {
        if i :| 0 <= i < n && at[..n][i] == p {
          assert at[i] < at[n];
        }
      }
      ListsSize(at[..n], chosen - {at[n]});
      assert at[n] in chosen;
    }
  }

  /** `picked` is what stands at these positions of `all`. */
  predicate Picks<T(==)>(at: seq<nat>, all: seq<T>, picked: seq<T>) {
    |picked| == |at| && forall n :: 0 <= n < |at| ==> at[n] < |all| && picked[n] == all[at[n]]
  }

  lemma PicksSnoc<T>(at: seq<nat>, all: seq<T>, picked: seq<T>, x: T)
    requires Picks(at, all, picked)
    ensures Picks(at, all + [x], picked)
    ensures Picks(at + [|all|], all + [x], picked + [x])
  {
  }
}
