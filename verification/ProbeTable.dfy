/**
 The open-addressing table of the compatibility set, as a value: what a lookup finds, and why
 filling an empty slot or leaving a tombstone keeps every other entry where lookups find it.
 */
module ProbeTable {
  import opened Basics
  import opened ProbePath

  const MIN_SIZE := 8

  datatype Entry<E> = Entry(elem: E, hash: nat)
  datatype Slot<E> = Empty | Removed | Full(entry: Entry<E>)
  type Table<E> = seq<Slot<E>>

  // ---------- contents ----------

  ghost function Members<E>(t: Table<E>): set<Entry<E>> {
    set s | 0 <= s < |t| && t[s].Full? :: t[s].entry
  }

  /** The live entries in slot order, which is the iteration order. */
  ghost function Live<E>(t: Table<E>): seq<Entry<E>> {
    if t == [] then [] else
      var front, last := t[..|t| - 1], t[|t| - 1];
      if last.Full? then Live(front) + [last.entry] else Live(front)
  }

  ghost function Filled<E>(t: Table<E>): nat {
    if t == [] then 0 else Filled(t[..|t| - 1]) + if t[|t| - 1].Empty? then 0 else 1
  }

  // ---------- lookup ----------

  ghost predicate Stops<E>(t: Table<E>, e: Entry<E>, s: nat)
    requires s < |t|
  {
    t[s].Empty? || t[s] == Full(e)
  }

  ghost predicate NoStopBefore<E>(t: Table<E>, e: Entry<E>, n: nat, j: nat)
    requires 0 < |t|
  {
    forall m: nat, i: nat :: i <= LINEAR_PROBES && Before(m, i, n, j) ==> !Stops(t, e, At(e.hash, |t|, m, i))
  }

  ghost predicate LooksAt<E>(t: Table<E>, e: Entry<E>, s: nat, n: nat, j: nat)
    requires 0 < |t|
  {
    j <= LINEAR_PROBES && At(e.hash, |t|, n, j) == s && Stops(t, e, s) && NoStopBefore(t, e, n, j)
  }

  /** `s` is the first slot on the path of `e` that is empty or holds `e`. */
  ghost predicate Looks<E>(t: Table<E>, e: Entry<E>, s: nat)
    requires 0 < |t|
  {
    exists n: nat, j: nat :: LooksAt(t, e, s, n, j)
  }

  ghost predicate NoEmptyBefore<E>(t: Table<E>, h: nat, n: nat, j: nat)
    requires 0 < |t|
  {
    forall m: nat, i: nat :: i <= LINEAR_PROBES && Before(m, i, n, j) ==> !t[At(h, |t|, m, i)].Empty?
  }

  ghost predicate OpenPath<E>(t: Table<E>, h: nat, s: nat, n: nat, j: nat)
    requires 0 < |t|
  {
    j <= LINEAR_PROBES && At(h, |t|, n, j) == s && NoEmptyBefore(t, h, n, j)
  }

  /** `s` is the first empty slot on the path of hash `h`. */
  ghost predicate FirstEmpty<E>(t: Table<E>, h: nat, s: nat)
    requires 0 < |t|
  {
    exists n: nat, j: nat :: OpenPath(t, h, s, n, j) && t[s].Empty?
  }

  // ---------- the table invariant ----------

  /** The entry in `s` lies on its own probe path with no empty slot before it. */
  ghost predicate Reached<E>(t: Table<E>, s: nat)
    requires s < |t| && t[s].Full?
  {
    exists n: nat, j: nat :: OpenPath(t, t[s].entry.hash, s, n, j)
  }

  ghost predicate Unique<E>(t: Table<E>) {
    forall i, j :: 0 <= i < j < |t| && t[i].Full? && t[j].Full? ==> t[i].entry != t[j].entry
  }

  ghost predicate Consistent<E>(t: Table<E>) {
    && MIN_SIZE <= |t| && IsPow2(|t|)
    && Unique(t)
    && forall s :: 0 <= s < |t| && t[s].Full? ==> Reached(t, s)
  }

  ghost predicate NoTombstones<E>(t: Table<E>) {
    forall s :: 0 <= s < |t| ==> !t[s].Removed?
  }

  // ---------- what a lookup finds ----------

  lemma LooksIsUnique<E>(t: Table<E>, e: Entry<E>, s: nat, s': nat)
    requires 0 < |t| && Looks(t, e, s) && Looks(t, e, s')
    ensures s == s'
  {
  }

  /** The first visit to a slot that is visited at all. */
  lemma {:induction false} FirstVisit(h: nat, cap: nat, s: nat, n: nat, j: nat) returns (m: nat, i: nat)
    requires 0 < cap && j <= LINEAR_PROBES && At(h, cap, n, j) == s
    ensures i <= LINEAR_PROBES && At(h, cap, m, i) == s
    ensures (m, i) == (n, j) || Before(m, i, n, j)
    ensures forall m': nat, i': nat :: i' <= LINEAR_PROBES && Before(m', i', m, i) ==> At(h, cap, m', i') != s
    decreases n, j
  {
    if m': nat, i': nat :| i' <= LINEAR_PROBES && Before(m', i', n, j) && At(h, cap, m', i') == s {
      m, i := FirstVisit(h, cap, s, m', i');
    } else {
      m, i := n, j;
    }
  }

  lemma PresentIsLookedUp<E>(t: Table<E>, e: Entry<E>, s: nat)
    requires Consistent(t) && s < |t| && t[s] == Full(e)
    ensures Looks(t, e, s)
  {
    assert Reached(t, s);
    var n: nat, j: nat :| OpenPath(t, e.hash, s, n, j);
    var m, i := FirstVisit(e.hash, |t|, s, n, j);
    assert LooksAt(t, e, s, m, i);
  }

  /** A lookup ends at the one slot holding the entry if it is stored, and otherwise at an
      empty slot: never at a tombstone, never at another entry. */
  lemma LookupIsMembership<E>(t: Table<E>, e: Entry<E>, s: nat)
    requires Consistent(t) && Looks(t, e, s)
    ensures s < |t|
    ensures e in Members(t) <==> t[s] == Full(e)
    ensures e !in Members(t) <==> t[s].Empty?
  {
  }

  /** For an absent entry, the tombstone-blind search of a clean insert and the full lookup
      agree on the slot. */
  lemma CleanSearchIsLookup<E>(t: Table<E>, e: Entry<E>, s: nat)
    requires Consistent(t) && e !in Members(t)
    ensures Looks(t, e, s) <==> FirstEmpty(t, e.hash, s)
  {
    forall i | 0 <= i < |t|
      ensures Stops(t, e, i) == t[i].Empty?
    {
    }
    if Looks(t, e, s) {
      var n: nat, j: nat :| LooksAt(t, e, s, n, j);
      assert OpenPath(t, e.hash, s, n, j);
    }
    if FirstEmpty(t, e.hash, s) {
      var n: nat, j: nat :| OpenPath(t, e.hash, s, n, j) && t[s].Empty?;
      assert LooksAt(t, e, s, n, j);
    }
  }

  // ---------- probing ends ----------

  /** With one empty slot, some probe step starts at an empty slot. */
  lemma SomeHeadIsEmpty<E>(t: Table<E>, h: nat) returns (n: nat)
    requires IsPow2(|t|)
    requires Filled(t) < |t|
    ensures t[Head(h, |t|, n)].Empty?
  {
    var s := SomeSlotIsEmpty(t);
    var k: nat :| |t| == Pow2(k);
    n := HeadReaches(h, k, s, 0);
  }

  lemma {:induction false} SomeSlotIsEmpty<E>(t: Table<E>) returns (s: nat)
    requires Filled(t) < |t|
    ensures s < |t| && t[s].Empty?
  {
    if t[|t| - 1].Empty? {
      s := |t| - 1;
    } else {
      s := SomeSlotIsEmpty(t[..|t| - 1]);
    }
  }

  // ---------- updates ----------

  lemma ReachedIsMonotone<E>(t: Table<E>, t': Table<E>, s: nat)
    requires 0 < |t| == |t'| && s < |t| && t[s].Full? && t'[s] == t[s] && Reached(t, s)
    requires forall i :: 0 <= i < |t| && !t[i].Empty? ==> !t'[i].Empty?
    ensures Reached(t', s)
  {
    var n: nat, j: nat :| OpenPath(t, t[s].entry.hash, s, n, j);
    assert OpenPath(t', t[s].entry.hash, s, n, j);
  }

  lemma InsertKeeps<E>(t: Table<E>, e: Entry<E>, s: nat)
    requires Consistent(t) && e !in Members(t) && FirstEmpty(t, e.hash, s)
    ensures s < |t| && t[s].Empty?
    ensures Consistent(t[s := Full(e)])
    ensures Members(t[s := Full(e)]) == Members(t) + {e}
  {
    var n: nat, j: nat :| OpenPath(t, e.hash, s, n, j) && t[s].Empty?;
    var t' := t[s := Full(e)];
    assert OpenPath(t', e.hash, s, n, j);
    forall i | 0 <= i < |t'| && t'[i].Full?
      ensures Reached(t', i)
    {
      if i != s {
        ReachedIsMonotone(t, t', i);
      }
    }
    MembersUpdate(t, s, Full(e));
    forall i, j | 0 <= i < j < |t'| && t'[i].Full? && t'[j].Full?
      ensures t'[i].entry != t'[j].entry
    {
      assert i != s ==> t[i].entry in Members(t);
      assert j != s ==> t[j].entry in Members(t);
    }
  }

  lemma MembersUpdate<E>(t: Table<E>, s: nat, x: Slot<E>)
    requires s < |t| && Unique(t)
    ensures Members(t[s := x]) ==
            Members(t) - (if t[s].Full? then {t[s].entry} else {}) + (if x.Full? then {x.entry} else {})
  {
    var t' := t[s := x];
    var r := Members(t) - (if t[s].Full? then {t[s].entry} else {}) + (if x.Full? then {x.entry} else {});
    forall e
      ensures e in Members(t') <==> e in r
    {
      if e in Members(t') {
        var i :| 0 <= i < |t'| && t'[i] == Full(e);
        assert i != s ==> t[i] == Full(e);
      }
      if e in r {
        if x.Full? && e == x.entry {
          assert t'[s] == Full(e);
        } else {
          var i :| 0 <= i < |t| && t[i] == Full(e);
          assert t'[i] == Full(e);
        }
      }
    }
  }

  lemma RemoveKeeps<E>(t: Table<E>, s: nat)
    requires Consistent(t) && s < |t| && t[s].Full?
    ensures Consistent(t[s := Removed])
    ensures Members(t[s := Removed]) == Members(t) - {t[s].entry}
  {
    var t' := t[s := Removed];
    forall i | 0 <= i < |t'| && t'[i].Full?
      ensures Reached(t', i)
    {
      ReachedIsMonotone(t, t', i);
    }
    MembersUpdate(t, s, Removed);
  }

  ghost predicate Blank<E>(t: Table<E>) {
    forall i :: 0 <= i < |t| ==> t[i].Empty?
  }

  lemma BlankIsConsistent<E>(t: Table<E>)
    requires Blank(t) && MIN_SIZE <= |t| && IsPow2(|t|)
    ensures Consistent(t) && Members(t) == {} && NoTombstones(t)
    ensures Filled(t) == 0 && Live(t) == []
  {
    BlankCounts(t);
  }

  lemma {:induction false} BlankCounts<E>(t: Table<E>)
    requires Blank(t)
    ensures Filled(t) == 0 && Live(t) == []
  {
    if t == [] {
    } else {
      BlankCounts(t[..|t| - 1]);
    }
  }

  // ---------- counting ----------

  lemma {:induction false} CountsUpdate<E>(t: Table<E>, s: nat, x: Slot<E>)
    requires s < |t|
    ensures Filled(t[s := x]) == Filled(t) - (if t[s].Empty? then 0 else 1) + (if x.Empty? then 0 else 1)
    ensures |Live(t[s := x])| == |Live(t)| - (if t[s].Full? then 1 else 0) + (if x.Full? then 1 else 0)
  {
    var front, t' := t[..|t| - 1], t[s := x];
    if s == |t| - 1 {
      assert t'[..|t| - 1] == front;
    } else {
      assert t'[..|t| - 1] == front[s := x];
      CountsUpdate(front, s, x);
    }
  }

  lemma {:induction false} LiveIsMembers<E>(t: Table<E>)
    ensures |Live(t)| <= Filled(t) <= |t|
    ensures forall e :: e in Live(t) <==> e in Members(t)
    ensures Unique(t) ==> Distinct(Live(t))
  {
    if t == [] {
    } else {
      var front, last := t[..|t| - 1], t[|t| - 1];
      LiveIsMembers(front);
      forall e
        ensures e in Live(t) <==> e in Members(t)
      {
        if e in Members(t) {
          var s :| 0 <= s < |t| && t[s] == Full(e);
          assert s < |t| - 1 ==> front[s] == Full(e) && e in Members(front);
        }
        if e in Members(front) {
          var s :| 0 <= s < |front| && front[s] == Full(e);
          assert t[s] == Full(e);
        }
        assert t[|t| - 1] == last;
      }
      if Unique(t) {
        assert Unique(front);
        assert forall s :: 0 <= s < |front| ==> front[s] == t[s];
        assert last.Full? ==> last.entry !in Members(front);
      }
    }
  }

  lemma {:induction false} DistinctCardinality<T>(s: seq<T>, m: set<T>)
    requires Distinct(s)
    requires forall x :: x in m <==> x in s
    ensures |m| == |s|
  {
    if s == [] {
      assert m == {};
    } else {
      var front, last := s[..|s| - 1], s[|s| - 1];
      assert s == front + [last];
      DistinctCardinality(front, m - {last});
    }
  }

  /** The number of live slots is the cardinality of the set they represent. */
  lemma LiveCardinality<E>(t: Table<E>)
    requires Unique(t)
    ensures |Live(t)| == |Members(t)|
  {
    LiveIsMembers(t);
    DistinctCardinality(Live(t), Members(t));
  }

  lemma {:induction false} LivePrefix<E>(t: Table<E>, k: nat)
    requires k <= |t|
    ensures Live(t[..k]) <= Live(t)
  {
    if k < |t| {
      LivePrefix(t[..|t| - 1], k);
      assert t[..|t| - 1][..k] == t[..k];
    } else {
      assert t[..k] == t;
    }
  }

  lemma LiveStep<E>(t: Table<E>, k: nat)
    requires k < |t|
    ensures Live(t[..k + 1]) == if t[k].Full? then Live(t[..k]) + [t[k].entry] else Live(t[..k])
  {
    assert t[..k + 1][..k] == t[..k];
  }

  lemma NextPrefix<E>(t: Table<E>, k: nat)
    requires k < |t|
    ensures Live(t[..k + 1]) == if t[k].Full? then Live(t[..k]) + [t[k].entry] else Live(t[..k])
    ensures Members(t[..k + 1]) == if t[k].Full? then Members(t[..k]) + {t[k].entry} else Members(t[..k])
    ensures Unique(t) && t[k].Full? ==> t[k].entry !in Members(t[..k])
  {
    LiveStep(t, k);
    var t' := t[..k + 1];
    assert forall s :: 0 <= s < k ==> t'[s] == t[..k][s] == t[s];
    assert t'[k] == t[k];
  }

  /** A table with a live entry has it in some slot. */
  lemma SomeSlotIsLive<E>(t: Table<E>) returns (s: nat)
    requires Live(t) != []
    ensures s < |t| && t[s].Full?
  {
    s := |t| - 1;
    if t[s].Full? {
    } else {
      s := SomeSlotIsLive(t[..s]);
    }
  }

  /** Without tombstones every slot that is not empty is live. */
  lemma {:induction false} NoTombstonesCounts<E>(t: Table<E>)
    ensures NoTombstones(t) <==> Filled(t) == |Live(t)|
  {
    if t == [] {
    } else {
      var front, last := t[..|t| - 1], t[|t| - 1];
      NoTombstonesCounts(front);
      LiveIsMembers(front);
      if NoTombstones(front) && !last.Removed? {
        assert forall s :: 0 <= s < |t| ==> t[s] == if s < |t| - 1 then front[s] else last;
      }
      if NoTombstones(t) {
        assert NoTombstones(front);
      }
    }
  }

  // ---------- probing with a negative hash ----------

  ghost predicate MeetsEmpty<E>(t: Table<E>, h: int)
    requires 0 < |t|
  {
    exists n: nat, j: nat :: j <= LINEAR_PROBES && t[At(h, |t|, n, j)].Empty?
  }

  /** In every table with an empty slot, probing with this hash meets one. */
  ghost predicate ProbingEnds(h: int) {
    forall k: nat, t: Table<int> :: 3 <= k && |t| == Pow2(k) && Filled(t) < |t| ==> MeetsEmpty(t, h)
  }

  /** Probing ends in every table with an empty slot if and only if the hash is not negative. */
  lemma ProbingEndsIffNonNegative(h: int)
    ensures ProbingEnds(h) <==> h >= 0
  {
    MeetsEverySlotIffNonNegative(h);
    if h >= 0 {
      forall k: nat, t: Table<int> | 3 <= k && |t| == Pow2(k) && Filled(t) < |t|
        ensures MeetsEmpty(t, h)
      {
        var n := SomeHeadIsEmpty(t, h);
        assert t[At(h, |t|, n, 0)].Empty?;
      }
    } else {
      var k: nat, slot: nat :| 3 <= k && slot < Pow2(k) && !Visits(h, Pow2(k), slot);
      var t := OnlyEmptyAt(Pow2(k), slot);
      assert !MeetsEmpty(t, h);
    }
  }

  lemma OnlyEmptyAt(cap: nat, slot: nat) returns (t: Table<int>)
    requires slot < cap
    ensures |t| == cap && Filled(t) < |t|
    ensures forall i :: 0 <= i < cap ==> (t[i].Empty? <==> i == slot)
  {
    t := seq(cap, i => if i == slot then Empty else Removed);
    CountsUpdate(t, slot, Removed);
    LiveIsMembers(t[slot := Removed]);
  }

  /** The set {0} as it is stored in eight slots: no visit of the integer -8, whose hash is -8,
      meets an empty slot or an entry for -8, so that adding it never ends. */
  lemma AddingMinusEightToZeroNeverEnds(t: Table<int>, n: nat, j: nat)
    requires Consistent(t) && NoTombstones(t) && |t| == 8 && Members(t) == {Entry(0, 0)}
    requires j <= LINEAR_PROBES
    ensures t[At(-8, 8, n, j)] == Full(Entry(0, 0))
  {
    NegativeHashStaysAtSlotZero(n, j);
    assert Entry(0, 0) in Members(t);
    var s: nat :| s < |t| && t[s] == Full(Entry(0, 0));
    assert Reached(t, s);
    var m: nat, i: nat :| OpenPath(t, 0, s, m, i);
    assert At(0, 8, 0, 0) == 0 && At(0, 8, 0, i) == 0;
    if m > 0 {
      assert Before(0, 0, m, i);
      assert t[0].Full? && t[0].entry in Members(t);
    }
  }
}
