/**
 Whole histories of a revocation registry: the accumulator chain, conservation of indices,
 the duality of the two strategies, and what delta queries answer.
 */
module RevocationRuns {
  import opened Basics
  import opened Revocation

  // ---------- the registry as a set ----------

  /** What matters of a stored entry: the accumulator and the set of kept indices. */
  datatype Registry = Registry(accum: string, indices: set<int>)

  ghost function RegistryOf(strategy: Strategy, v: Value): Registry {
    Registry(v.accum, SetOf(Kept(strategy, v)))
  }

  /** The entry may follow: it names the current accumulator, changes it, moves at least one
      index, moves no index both ways, and moves only what is there to move. */
  ghost predicate Follows(strategy: Strategy, r: Registry, txn: Value) {
    && txn.prevAccum == Some(r.accum) && txn.accum != r.accum
    && (txn.Issued() != [] || txn.Revoked() != [])
    && SetOf(txn.Issued()) !! SetOf(txn.Revoked())
    && SetOf(Taken(strategy, txn)) <= r.indices
    && SetOf(Kept(strategy, txn)) !! r.indices
  }

  ghost function After(strategy: Strategy, r: Registry, txn: Value): Registry {
    Registry(txn.accum, (r.indices - SetOf(Taken(strategy, txn))) + SetOf(Kept(strategy, txn)))
  }

  /** Validation depends on the stored list only as a set: acceptance is `Follows`. */
  lemma AcceptedIffFollows(strategy: Strategy, current: Value, txn: Value)
    ensures Validate(strategy, Some(current), txn) == Accepted
            <==> Follows(strategy, RegistryOf(strategy, current), txn)
  {
    EmptyMeet(SetOf(txn.Issued()), SetOf(txn.Revoked()));
    var t, k, s := SetOf(Taken(strategy, txn)), SetOf(Kept(strategy, txn)), SetOf(Kept(strategy, current));
    EmptyRest(t, s);
    EmptyMeet(s, k);
  }

  /** So does writing: the new registry is `After`, for either write path. */
  lemma WrittenIsAfter(strategy: Strategy, current: Value, txn: Value, stored: Value)
    requires Written(strategy, Some(current), txn, stored)
    ensures RegistryOf(strategy, stored) == After(strategy, RegistryOf(strategy, current), txn)
  {
  }

  /** In terms of the two lists: a registry issued by default keeps what is revoked, one issued
      on demand keeps what is issued, and the other list is stored empty. */
  lemma WrittenLists(strategy: Strategy, current: Value, txn: Value, stored: Value)
    requires Written(strategy, Some(current), txn, stored)
    ensures strategy.RevokedStrategy? ==>
              && SetOf(stored.Revoked()) == (SetOf(current.Revoked()) - SetOf(txn.Issued())) + SetOf(txn.Revoked())
              && stored.Issued() == [] && Distinct(stored.Revoked())
    ensures strategy.IssuedStrategy? ==>
              && SetOf(stored.Issued()) == (SetOf(current.Issued()) - SetOf(txn.Revoked())) + SetOf(txn.Issued())
              && stored.Revoked() == [] && Distinct(stored.Issued())
  {
  }

  // ---------- histories ----------

  /** `stored[k]` is what the state holds after `txns[k]`; every transaction was accepted. */
  ghost predicate History(strategy: Strategy, txns: seq<Value>, stored: seq<Value>) {
    && |txns| == |stored|
    && forall k {:trigger Step(strategy, Before(stored, k), txns[k], stored[k])} ::
         0 <= k < |txns| ==> Step(strategy, Before(stored, k), txns[k], stored[k])
  }

  ghost function Before(stored: seq<Value>, k: nat): Option<Value>
    requires k <= |stored|
  {
    if k == 0 then None else Some(stored[k - 1])
  }

  ghost predicate Step(strategy: Strategy, current: Option<Value>, txn: Value, stored: Value) {
    Validate(strategy, current, txn) == Accepted && Written(strategy, current, txn, stored)
  }

  /** A history starts with any entry that names no accumulator and has no index in both lists,
      and that entry is stored as it is. */
  lemma HistoryStartsIff(strategy: Strategy, txn: Value, stored: Value)
    ensures History(strategy, [txn], [stored])
            <==> stored == txn && txn.prevAccum.None? && SetOf(txn.Issued()) !! SetOf(txn.Revoked())
  {
    FirstAcceptedIff(strategy, txn);
    var txns, all := [txn], [stored];
    assert Before(all, 0) == None;
    assert History(strategy, txns, all) ==> Step(strategy, Before(all, 0), txns[0], all[0]);
  }

  /** It goes on with exactly the entries that may follow the one stored last. */
  lemma HistoryGrowsIff(strategy: Strategy, txns: seq<Value>, stored: seq<Value>, txn: Value, v: Value)
    requires History(strategy, txns, stored) && txns != []
    ensures History(strategy, txns + [txn], stored + [v])
            <==> && Follows(strategy, RegistryOf(strategy, stored[|stored| - 1]), txn)
                 && Written(strategy, Some(stored[|stored| - 1]), txn, v)
  {
    var n := |txns|;
    AcceptedIffFollows(strategy, stored[n - 1], txn);
    var txns', stored' := txns + [txn], stored + [v];
    assert Before(stored', n) == Some(stored[n - 1]);
    assert History(strategy, txns', stored') ==> Step(strategy, Before(stored', n), txns'[n], stored'[n]);
    if Step(strategy, Some(stored[n - 1]), txn, v) {
      forall k | 0 <= k < |txns'|
        ensures Step(strategy, Before(stored', k), txns'[k], stored'[k])
      {
        if k < n {
          assert Step(strategy, Before(stored, k), txns[k], stored[k]);
        }
      }
    }
  }

  /** Every entry names its predecessor's accumulator and changes it; the first names none and
      is stored as it is. */
  lemma AccumulatorChain(strategy: Strategy, txns: seq<Value>, stored: seq<Value>, k: nat)
    requires History(strategy, txns, stored) && k < |stored|
    ensures stored[k].accum == txns[k].accum
    ensures k == 0 ==> stored[k] == txns[k] && stored[k].prevAccum == None
                       && SetOf(stored[k].Issued()) !! SetOf(stored[k].Revoked())
    ensures k > 0 ==> stored[k].prevAccum == Some(stored[k - 1].accum) && stored[k].accum != stored[k - 1].accum
  {
    assert Step(strategy, Before(stored, k), txns[k], stored[k]);
    if k > 0 {
      AcceptedIffFollows(strategy, stored[k - 1], txns[k]);
    } else {
      FirstAcceptedIff(strategy, txns[k]);
    }
  }

  lemma CardinalityOfMove(a: set<int>, t: set<int>, p: set<int>)
    requires t <= a && p !! a
    ensures |(a - t) + p| == |a| - |t| + |p|
  {
  }

  /** Indices are conserved: the kept set loses exactly the taken ones, gains exactly the new
      ones, and is a different set after every step. */
  lemma IndicesAreConserved(strategy: Strategy, txns: seq<Value>, stored: seq<Value>, k: nat)
    requires History(strategy, txns, stored) && 0 < k < |stored|
    ensures |SetOf(Kept(strategy, stored[k]))| ==
            |SetOf(Kept(strategy, stored[k - 1]))| - |SetOf(Taken(strategy, txns[k]))| + |SetOf(Kept(strategy, txns[k]))|
    ensures SetOf(Kept(strategy, stored[k])) != SetOf(Kept(strategy, stored[k - 1]))
    ensures Distinct(Kept(strategy, stored[k])) && Taken(strategy, stored[k]) == []
  {
    assert Step(strategy, Before(stored, k), txns[k], stored[k]);
    AcceptedIffFollows(strategy, stored[k - 1], txns[k]);
    WrittenIsAfter(strategy, stored[k - 1], txns[k], stored[k]);
    var a, t, p := SetOf(Kept(strategy, stored[k - 1])), SetOf(Taken(strategy, txns[k])), SetOf(Kept(strategy, txns[k]));
    CardinalityOfMove(a, t, p);
    EmptySetOf(Taken(strategy, txns[k]));
    EmptySetOf(Kept(strategy, txns[k]));
    MoveChanges(a, t, p);
  }

  lemma MoveChanges(a: set<int>, t: set<int>, p: set<int>)
    requires t <= a && p !! a && t !! p && (t != {} || p != {})
    ensures (a - t) + p != a
  {
  }

  // ---------- the ordering flag never matters ----------

  lemma {:induction false} ReplicasHoldOneRegistry(strategy: Strategy, txns: seq<Value>, s1: seq<Value>, s2: seq<Value>, k: nat)
    requires History(strategy, txns, s1) && History(strategy, txns, s2) && k < |txns|
    ensures RegistryOf(strategy, s1[k]) == RegistryOf(strategy, s2[k])
  {
    assert Step(strategy, Before(s1, k), txns[k], s1[k]) && Step(strategy, Before(s2, k), txns[k], s2[k]);
    if k == 0 {
    } else {
      ReplicasHoldOneRegistry(strategy, txns, s1, s2, k - 1);
      WrittenIsAfter(strategy, s1[k - 1], txns[k], s1[k]);
      WrittenIsAfter(strategy, s2[k - 1], txns[k], s2[k]);
    }
  }

  /** Two nodes that replay the same transactions, each with its own choice of write path at
      every step, hold permutations of the same lists. */
  lemma ReplicasAgreeUpToOrder(strategy: Strategy, txns: seq<Value>, s1: seq<Value>, s2: seq<Value>, k: nat)
    requires History(strategy, txns, s1) && History(strategy, txns, s2) && k < |txns|
    ensures multiset(Kept(strategy, s1[k])) == multiset(Kept(strategy, s2[k]))
    ensures s1[k].accum == s2[k].accum
  {
    ReplicasHoldOneRegistry(strategy, txns, s1, s2, k);
    assert Step(strategy, Before(s1, k), txns[k], s1[k]) && Step(strategy, Before(s2, k), txns[k], s2[k]);
    if k > 0 {
      SameSetSameMultiset(Kept(strategy, s1[k]), Kept(strategy, s2[k]));
    }
  }

  // ---------- duality ----------

  ghost predicate Dual(universe: set<int>, revoked: Registry, issued: Registry) {
    && revoked.accum == issued.accum
    && revoked.indices <= universe
    && issued.indices == universe - revoked.indices
  }

  ghost predicate Within(universe: set<int>, txn: Value) {
    SetOf(txn.Issued()) <= universe && SetOf(txn.Revoked()) <= universe
  }

  /** From dual registries both strategies accept the same entries and stay dual. */
  lemma DualStep(universe: set<int>, r: Registry, i: Registry, txn: Value)
    requires Dual(universe, r, i) && Within(universe, txn)
    ensures Follows(RevokedStrategy, r, txn) <==> Follows(IssuedStrategy, i, txn)
    ensures Follows(RevokedStrategy, r, txn) ==>
              Dual(universe, After(RevokedStrategy, r, txn), After(IssuedStrategy, i, txn))
  {
  }

  /** The registry after a list of transactions, if all of them are accepted. */
  ghost function Replay(strategy: Strategy, r: Registry, txns: seq<Value>): Option<Registry>
    decreases txns
  {
    if txns == [] then Some(r)
    else if Follows(strategy, r, txns[0]) then Replay(strategy, After(strategy, r, txns[0]), txns[1..])
    else None
  }

  /** Storing revoked indices and storing issued indices are the same registry: over every
      list of transactions both accept or both reject, and end as complements. */
  lemma {:induction false} StrategiesAreDual(universe: set<int>, r: Registry, i: Registry, txns: seq<Value>)
    requires Dual(universe, r, i)
    requires forall k :: 0 <= k < |txns| ==> Within(universe, txns[k])
    ensures var r', i' := Replay(RevokedStrategy, r, txns), Replay(IssuedStrategy, i, txns);
            && (r'.Some? <==> i'.Some?)
            && (r'.Some? ==> Dual(universe, r'.value, i'.value))
    decreases txns
  {
    if txns == [] {
    } else {
      DualStep(universe, r, i, txns[0]);
      if Follows(RevokedStrategy, r, txns[0]) {
        StrategiesAreDual(universe, After(RevokedStrategy, r, txns[0]), After(IssuedStrategy, i, txns[0]), txns[1..]);
      }
    }
  }

  // ---------- deltas ----------

  /** The indices issued and the indices revoked between two points. */
  datatype Delta = Delta(issued: set<int>, revoked: set<int>)

  /** `get_delta(to, from)` between two stored entries. */
  function GetDelta(strategy: Strategy, to: Value, from: Value): Delta {
    var gained := ToSet(Kept(strategy, to)) - ToSet(Kept(strategy, from));
    var lost := ToSet(Kept(strategy, from)) - ToSet(Kept(strategy, to));
    if strategy.RevokedStrategy? then Delta(lost, gained) else Delta(gained, lost)
  }

  ghost function DeltaOf(txn: Value): Delta {
    Delta(SetOf(txn.Issued()), SetOf(txn.Revoked()))
  }

  /** What a holder of the older kept set does with a delta. */
  ghost function Apply(strategy: Strategy, d: Delta, kept: set<int>): set<int> {
    if strategy.RevokedStrategy? then (kept - d.issued) + d.revoked else (kept - d.revoked) + d.issued
  }

  /** One delta after another; an index moved both ways cancels. */
  ghost function Compose(d: Delta, e: Delta): Delta {
    Delta((d.issued - e.revoked) + (e.issued - d.revoked), (d.revoked - e.issued) + (e.revoked - d.issued))
  }

  lemma DeltaLeadsFromOneToTheOther(strategy: Strategy, from: Value, to: Value)
    ensures Apply(strategy, GetDelta(strategy, to, from), SetOf(Kept(strategy, from))) == SetOf(Kept(strategy, to))
  {
  }

  lemma DeltasCompose(strategy: Strategy, a: Value, b: Value, c: Value)
    ensures Compose(GetDelta(strategy, b, a), GetDelta(strategy, c, b)) == GetDelta(strategy, c, a)
  {
  }

  /** Both strategies answer a delta query alike. */
  lemma DualDeltasAgree(universe: set<int>, r: Value, r': Value, i: Value, i': Value)
    requires Dual(universe, RegistryOf(RevokedStrategy, r), RegistryOf(IssuedStrategy, i))
    requires Dual(universe, RegistryOf(RevokedStrategy, r'), RegistryOf(IssuedStrategy, i'))
    ensures GetDelta(RevokedStrategy, r', r) == GetDelta(IssuedStrategy, i', i)
  {
  }

  /** Between neighbours the delta is the transaction itself. */
  lemma AdjacentDelta(strategy: Strategy, txns: seq<Value>, stored: seq<Value>, k: nat)
    requires History(strategy, txns, stored) && 0 < k < |stored|
    ensures GetDelta(strategy, stored[k], stored[k - 1]) == DeltaOf(txns[k])
  {
    assert Step(strategy, Before(stored, k), txns[k], stored[k]);
    AcceptedIffFollows(strategy, stored[k - 1], txns[k]);
    WrittenIsAfter(strategy, stored[k - 1], txns[k], stored[k]);
  }

  /** The net effect of consecutive transactions, computed from the transactions alone. */
  ghost function Net(txns: seq<Value>): Delta {
    if txns == [] then Delta({}, {}) else Compose(Net(txns[..|txns| - 1]), DeltaOf(txns[|txns| - 1]))
  }

  /** The delta between any two stored entries is the net effect of the transactions after
      the first, up to and including the second. */
  lemma {:induction false} DeltaIsNetEffect(strategy: Strategy, txns: seq<Value>, stored: seq<Value>, a: nat, b: nat)
    requires History(strategy, txns, stored) && a <= b < |stored|
    ensures GetDelta(strategy, stored[b], stored[a]) == Net(txns[a + 1..b + 1])
  {
    if a == b {
      NoDelta(strategy, stored[a]);
      assert txns[a + 1..b + 1] == [];
    } else {
      DeltaIsNetEffect(strategy, txns, stored, a, b - 1);
      AdjacentDelta(strategy, txns, stored, b);
      ExtendDelta(strategy, stored[a], stored[b - 1], stored[b], Net(txns[a + 1..b]), DeltaOf(txns[b]));
      NetStep(txns, a + 1, b);
    }
  }

  lemma ExtendDelta(strategy: Strategy, a: Value, b: Value, c: Value, ab: Delta, bc: Delta)
    requires GetDelta(strategy, b, a) == ab && GetDelta(strategy, c, b) == bc
    ensures GetDelta(strategy, c, a) == Compose(ab, bc)
  {
  }

  lemma NoDelta(strategy: Strategy, v: Value)
    ensures GetDelta(strategy, v, v) == Delta({}, {})
  {
  }

  lemma NetStep(txns: seq<Value>, a: nat, b: nat)
    requires a <= b < |txns|
    ensures Net(txns[a..b + 1]) == Compose(Net(txns[a..b]), DeltaOf(txns[b]))
  {
    var s := txns[a..b + 1];
    assert s[..|s| - 1] == txns[a..b];
    assert s[|s| - 1] == txns[b];
  }
}
