/**
 Value-level facts behind the operations of the compatibility set: one probe step, the sets
 that bulk operations compute, and what the implemented equality test decides.
 */
module EntrySets {
  import opened Basics
  import opened ProbePath
  import opened ProbeTable

  // ---------- sets of entries and sets of elements ----------

  ghost function Elems<E>(m: set<Entry<E>>): set<E> {
    set e | e in m :: e.elem
  }

  ghost predicate Hashed<E(!new)>(m: set<Entry<E>>, hash: E -> nat) {
    forall e :: e in m ==> e.hash == hash(e.elem)
  }

  lemma ElemsUpdate<E(!new)>(m: set<Entry<E>>, hash: E -> nat, x: E)
    requires Hashed(m, hash)
    ensures x in Elems(m) <==> Entry(x, hash(x)) in m
    ensures Elems(m + {Entry(x, hash(x))}) == Elems(m) + {x}
    ensures Elems(m - {Entry(x, hash(x))}) == Elems(m) - {x}
  {
  }

  lemma ElemsUnion<E>(m: set<Entry<E>>, m': set<Entry<E>>)
    ensures Elems(m + m') == Elems(m) + Elems(m')
  {
  }

  // ---------- one probe step ----------

  ghost predicate NoStopIn<E>(t: Table<E>, e: Entry<E>, lo: nat, hi: nat)
    requires hi <= |t|
  {
    forall p: nat :: lo <= p < hi ==> !Stops(t, e, p)
  }

  lemma HeadFinds<E>(t: Table<E>, e: Entry<E>, n: nat)
    requires 0 < |t| && NoStopBefore(t, e, n, 0)
    requires Stops(t, e, Head(e.hash, |t|, n))
    ensures Looks(t, e, Head(e.hash, |t|, n))
  {
    assert LooksAt(t, e, Head(e.hash, |t|, n), n, 0);
  }

  lemma RunFinds<E>(t: Table<E>, e: Entry<E>, n: nat, s: nat)
    requires 0 < |t| && NoStopBefore(t, e, n, 0) && !Stops(t, e, Head(e.hash, |t|, n))
    requires Head(e.hash, |t|, n) < s <= Head(e.hash, |t|, n) + LINEAR_PROBES < |t|
    requires NoStopIn(t, e, Head(e.hash, |t|, n) + 1, s) && Stops(t, e, s)
    ensures Looks(t, e, s)
  {
    assert LooksAt(t, e, s, n, s - Head(e.hash, |t|, n));
  }

  lemma StepPasses<E>(t: Table<E>, e: Entry<E>, n: nat)
    requires 0 < |t| && NoStopBefore(t, e, n, 0) && !Stops(t, e, Head(e.hash, |t|, n))
    requires Head(e.hash, |t|, n) + LINEAR_PROBES < |t| ==>
               NoStopIn(t, e, Head(e.hash, |t|, n) + 1, Head(e.hash, |t|, n) + LINEAR_PROBES + 1)
    ensures NoStopBefore(t, e, n + 1, 0)
  {
  }

  ghost predicate NoEmptyIn<E>(t: Table<E>, lo: nat, hi: nat)
    requires hi <= |t|
  {
    forall p: nat :: lo <= p < hi ==> !t[p].Empty?
  }

  lemma HeadFindsEmpty<E>(t: Table<E>, h: nat, n: nat)
    requires 0 < |t| && NoEmptyBefore(t, h, n, 0)
    requires t[Head(h, |t|, n)].Empty?
    ensures FirstEmpty(t, h, Head(h, |t|, n))
  {
    assert OpenPath(t, h, Head(h, |t|, n), n, 0);
  }

  lemma RunFindsEmpty<E>(t: Table<E>, h: nat, n: nat, s: nat)
    requires 0 < |t| && NoEmptyBefore(t, h, n, 0) && !t[Head(h, |t|, n)].Empty?
    requires Head(h, |t|, n) < s <= Head(h, |t|, n) + LINEAR_PROBES < |t|
    requires NoEmptyIn(t, Head(h, |t|, n) + 1, s) && t[s].Empty?
    ensures FirstEmpty(t, h, s)
  {
    assert OpenPath(t, h, s, n, s - Head(h, |t|, n));
  }

  lemma StepPassesEmpty<E>(t: Table<E>, h: nat, n: nat)
    requires 0 < |t| && NoEmptyBefore(t, h, n, 0) && !t[Head(h, |t|, n)].Empty?
    requires Head(h, |t|, n) + LINEAR_PROBES < |t| ==>
               NoEmptyIn(t, Head(h, |t|, n) + 1, Head(h, |t|, n) + LINEAR_PROBES + 1)
    ensures NoEmptyBefore(t, h, n + 1, 0)
  {
  }

  // ---------- bulk operations ----------

  /** The elements that occur an odd number of times. */
  ghost function OddOnes<E>(list: seq<E>): set<E> {
    set x | x in list && multiset(list)[x] % 2 == 1
  }

  ghost function Xor<E>(a: set<E>, b: set<E>): set<E> {
    (a - b) + (b - a)
  }

  /** Toggling a list of elements one by one is the symmetric difference with the set of these
      elements exactly when none of them occurs an even number of times. */
  lemma TogglingIsSymmetricDifferenceIff<E(!new)>(s: set<E>, list: seq<E>)
    ensures Xor(s, OddOnes(list)) == Xor(s, SetOf(list))
            <==> forall x :: x in list ==> multiset(list)[x] % 2 == 1
  {
    var a, b := Xor(s, OddOnes(list)), Xor(s, SetOf(list));
    if forall x :: x in list ==> multiset(list)[x] % 2 == 1 {
      assert OddOnes(list) == SetOf(list);
    } else {
      var x :| x in list && multiset(list)[x] % 2 == 0;
      assert x in a <==> x in s;
      assert x in b <==> x !in s;
    }
  }

  lemma DistinctIsOdd<E(!new)>(list: seq<E>)
    requires Distinct(list)
    ensures OddOnes(list) == SetOf(list)
  {
    forall x | x in list
      ensures multiset(list)[x] == 1
    {
      var i :| 0 <= i < |list| && list[i] == x;
      assert list == list[..i] + [x] + list[i + 1..];
      assert x !in list[..i] && x !in list[i + 1..];
    }
  }

  lemma OddOnesStep<E>(list: seq<E>, k: nat)
    requires k < |list|
    ensures OddOnes(list[..k + 1]) == Xor(OddOnes(list[..k]), {list[k]})
  {
    assert list[..k + 1] == list[..k] + [list[k]];
  }

  ghost function Without<E>(list: seq<Entry<E>>, b: set<E>): set<Entry<E>> {
    set e | e in list && e.elem !in b
  }

  lemma WithoutStep<E>(list: seq<Entry<E>>, e: Entry<E>, b: set<E>)
    ensures Without(list + [e], b) == Without(list, b) + (if e.elem in b then {} else {e})
  {
  }

  lemma WithoutElems<E>(list: seq<Entry<E>>, m: set<Entry<E>>, b: set<E>)
    requires forall e :: e in list <==> e in m
    ensures Elems(Without(list, b)) == Elems(m) - b
  {
  }

  // ---------- equality as implemented ----------

  /** What `==` computes: it compares sizes and then looks only at the first `|m|` slots. */
  ghost predicate EqScan<E>(t: Table<E>, m: set<Entry<E>>) {
    && |Live(t)| == |m|
    && forall pos :: 0 <= pos < |m| && pos < |t| && t[pos].Full? ==> t[pos].entry in m
  }

  /** All live entries sit in the first slots of the table. */
  ghost predicate Packed<E>(t: Table<E>) {
    forall s :: 0 <= s < |t| && t[s].Full? ==> s < |Live(t)|
  }

  lemma EqualSetsCompareEqual<E>(t: Table<E>)
    requires Unique(t)
    ensures EqScan(t, Members(t))
  {
    LiveCardinality(t);
  }

  lemma SubsetOfSameSize<T>(a: set<T>, b: set<T>)
    requires a <= b && |a| == |b|
    ensures a == b
  {
    assert |b - a| == |b| - |a|;
    assert b == a + (b - a);
  }

  /** Slot `i` is the first live one from `start` on, going round at the end of the table. */
  ghost predicate FirstLiveFrom<E>(t: Table<E>, start: nat, i: int) {
    && 0 <= i < |t| && t[i].Full?
    && forall k :: 0 <= k < |t| && (if start <= i then start <= k < i else k < i || start <= k) ==> !t[k].Full?
  }

  lemma PackedComparesExactly<E>(t: Table<E>, m: set<Entry<E>>)
    requires Unique(t) && Packed(t) && EqScan(t, m)
    ensures m == Members(t)
  {
    LiveCardinality(t);
    assert Members(t) <= m;
    SubsetOfSameSize(Members(t), m);
  }

  /** A live entry beyond the scanned slots can be exchanged for any other entry unnoticed. */
  lemma UnscannedEntryIsIgnored<E>(t: Table<E>, s: nat, y: Entry<E>)
    requires Unique(t) && s < |t| && t[s].Full? && s >= |Live(t)| && y !in Members(t)
    ensures EqScan(t, Members(t) - {t[s].entry} + {y})
    ensures Members(t) - {t[s].entry} + {y} != Members(t)
  {
    LiveCardinality(t);
    assert t[s].entry in Members(t);
    assert y in Members(t) - {t[s].entry} + {y};
  }

  lemma FreshNat(s: set<nat>) returns (x: nat)
    ensures x !in s
    ensures forall y :: y in s ==> y < x
    decreases |s|
  {
    if s == {} {
      x := 0;
    } else {
      var y :| y in s;
      var x' := FreshNat(s - {y});
      x := if x' <= y then y + 1 else x';
      assert forall z :: z in s ==> z == y || z in s - {y};
    }
  }

  /** `==` decides equality with every other set exactly when the scanned table is packed. */
  lemma EqIsEqualityIffPacked(t: Table<nat>, hash: nat -> nat)
    requires Unique(t) && Hashed(Members(t), hash)
    ensures (forall m: set<Entry<nat>> :: Hashed(m, hash) ==> (EqScan(t, m) <==> m == Members(t)))
            <==> Packed(t)
  {
    EqualSetsCompareEqual(t);
    if Packed(t) {
      forall m: set<Entry<nat>> | EqScan(t, m)
        ensures m == Members(t)
      {
        PackedComparesExactly(t, m);
      }
    } else {
      var s: nat :| s < |t| && t[s].Full? && s >= |Live(t)|;
      var x := FreshNat(Elems(Members(t)));
      var y := Entry(x, hash(x));
      assert y !in Members(t) by {
        ElemsUpdate(Members(t), hash, x);
      }
      UnscannedEntryIsIgnored(t, s, y);
      assert Hashed(Members(t) - {t[s].entry} + {y}, hash);
    }
  }

  /** Two different one-element sets, {5} and {3}, that compare equal: the scan looks at slot 0
      of the first table only. */
  lemma DifferentSetsCompareEqual(t: Table<nat>)
    requires t == seq(8, i => Empty)[5 := Full(Entry(5, 5))]
    ensures EqScan(t, {Entry(3, 3)}) && Members(t) == {Entry(5, 5)}
  {
    var blank: Table<nat> := seq(8, i => Empty);
    BlankCounts(blank);
    CountsUpdate(blank, 5, Full(Entry(5, 5)));
    assert t == blank[5 := Full(Entry(5, 5))];
    assert t[5] == Full(Entry(5, 5));
  }
}
