/**
 The GET_REVOC_REG_DELTA query: what it answers over two snapshots of the state, and that
 this is the net effect of the transactions committed between the two times.
 */
module RevocationDelta {
  import opened Basics
  import opened Revocation
  import opened RevocationRuns

  /** The state at a committed batch: the issuance type of the registry definition and the two
      records of the registry, as far as they exist. */
  datatype Snapshot = Snapshot(time: nat, issuance: Option<Strategy>,
                               entry: Option<EntryRecord>, accum: Option<AccumRecord>)

  /** The last snapshot that is not later than the timestamp. */
  function EqualOrPrev(store: seq<Snapshot>, ts: nat): Option<Snapshot> {
    if store == [] then None
    else if store[|store| - 1].time <= ts then Some(store[|store| - 1])
    else EqualOrPrev(store[..|store| - 1], ts)
  }

  function EntryAt(store: seq<Snapshot>, ts: nat): Option<EntryRecord> {
    var s := EqualOrPrev(store, ts);
    if s.Some? then s.value.entry else None
  }

  function AccumAt(store: seq<Snapshot>, ts: nat): Option<AccumRecord> {
    var s := EqualOrPrev(store, ts);
    if s.Some? then s.value.accum else None
  }

  /** The lists of a reply: the stored lists themselves, or the difference of two entries. */
  datatype Changes = Stored(issuedList: seq<int>, revokedList: seq<int>) | Between(delta: Delta)

  datatype AccumTo = FullEntry(entry: EntryRecord) | AccumOnly(accum: AccumRecord)

  datatype Reply =
    | Answer(accumTo: AccumTo, changes: Changes, accumFrom: Option<Option<AccumRecord>>)
    | NothingYet(accumFromThen: Option<AccumRecord>)

  /** `get_result`; a FROM of zero counts as absent wherever the handler tests it for truth. */
  function GetResult(store: seq<Snapshot>, from: Option<nat>, to: nat): Option<Reply> {
    var entryTo, accumTo := EntryAt(store, to), AccumAt(store, to);
    var asked := from.Some? && from.value != 0;
    if entryTo.Some? && accumTo.Some? && EqualOrPrev(store, to).value.issuance.Some? then
      var strategy := EqualOrPrev(store, to).value.issuance.value;
      var entryFrom := if asked then EntryAt(store, from.value) else None;
      var accumFrom := if asked then AccumAt(store, from.value) else None;
      var changes :=
        if entryFrom.Some? && accumFrom.Some? then
          Between(GetDelta(strategy, entryTo.value.value, entryFrom.value.value))
        else
          Stored(entryTo.value.value.Issued(), entryTo.value.value.Revoked());
      var upTo := if entryFrom.Some? then AccumOnly(accumTo.value) else FullEntry(entryTo.value);
      Some(Answer(upTo, changes, if asked then Some(accumFrom) else None))
    else if from.Some? then
      Some(NothingYet(AccumAt(store, from.value)))
    else
      None
  }

  // ---------- the store left by one registry's history ----------

  /** The values of the transactions committed after `from` and not after `to`. */
  ghost function CommittedIn(txns: seq<Value>, times: seq<nat>, from: nat, to: nat): seq<Value>
    requires |txns| == |times|
  {
    if txns == [] then [] else
      var n := |txns| - 1;
      var earlier := CommittedIn(txns[..n], times[..n], from, to);
      if from < times[n] <= to then earlier + [txns[n]] else earlier
  }

  /** `k` of the times are not later than `ts`. */
  ghost predicate Splits(times: seq<nat>, ts: nat, k: nat) {
    && k <= |times|
    && (forall i :: 0 <= i < k ==> times[i] <= ts)
    && (forall i :: k <= i < |times| ==> times[i] > ts)
  }

  ghost predicate NonDecreasing(times: seq<nat>) {
    forall i, j :: 0 <= i < j < |times| ==> times[i] <= times[j]
  }

  /** The snapshot holds the entry of the last transaction that is not later than it, with its
      accumulator, and no entry if there is none. */
  ghost predicate Holds(strategy: Strategy, stored: seq<Value>, times: seq<nat>, s: Snapshot)
    requires |stored| == |times|
  {
    forall k: nat :: Splits(times, s.time, k) ==>
      if k == 0 then s.entry.None? && s.accum.None?
      else s.issuance == Some(strategy)
           && s.entry.Some? && s.entry.value.value == stored[k - 1]
           && s.accum.Some? && s.accum.value.accum == stored[k - 1].accum
  }

  ghost predicate SnapshotAt(store: seq<Snapshot>, t: nat) {
    exists i :: 0 <= i < |store| && store[i].time == t
  }

  /** The timestamp store of a ledger on which the `k`th transaction of this registry committed
      at `times[k]`: one snapshot for every batch, among them batches with several of these
      transactions and batches with none, before the first of them too. */
  ghost predicate Records(strategy: Strategy, stored: seq<Value>, times: seq<nat>, store: seq<Snapshot>) {
    && |stored| == |times| && NonDecreasing(times)
    && (forall i, j :: 0 <= i < j < |store| ==> store[i].time < store[j].time)
    && (forall i :: 0 <= i < |store| ==> Holds(strategy, stored, times, store[i]))
    && (forall k :: 0 <= k < |times| ==> SnapshotAt(store, times[k]))
  }

  lemma {:induction false} SplitPoint(times: seq<nat>, ts: nat) returns (k: nat)
    requires NonDecreasing(times)
    ensures Splits(times, ts, k)
  {
    if times == [] {
      k := 0;
    } else if times[|times| - 1] <= ts {
      k := |times|;
    } else {
      k := SplitPoint(times[..|times| - 1], ts);
    }
  }

  /** What the store finds: the last snapshot not later than the timestamp, if any. */
  lemma {:induction false} EqualOrPrevFinds(store: seq<Snapshot>, ts: nat)
    requires forall i, j :: 0 <= i < j < |store| ==> store[i].time < store[j].time
    ensures var r := EqualOrPrev(store, ts);
            && (r.Some? ==> r.value in store && r.value.time <= ts)
            && forall i :: 0 <= i < |store| && store[i].time <= ts ==> r.Some? && store[i].time <= r.value.time
  {
    if store == [] {
    } else if store[|store| - 1].time > ts {
      var front := store[..|store| - 1];
      EqualOrPrevFinds(front, ts);
      assert forall i :: 0 <= i < |front| ==> front[i] == store[i];
    }
  }

  /** At any timestamp the store answers with the entry of the last transaction not later than
      it, whichever batches lie in between. */
  lemma EntryInForce(strategy: Strategy, stored: seq<Value>, times: seq<nat>, store: seq<Snapshot>, ts: nat)
    returns (k: nat)
    requires Records(strategy, stored, times, store)
    ensures Splits(times, ts, k)
    ensures k == 0 ==> EntryAt(store, ts).None? && AccumAt(store, ts).None?
    ensures k > 0 ==>
              && EqualOrPrev(store, ts).Some? && EqualOrPrev(store, ts).value.issuance == Some(strategy)
              && EntryAt(store, ts).Some? && EntryAt(store, ts).value.value == stored[k - 1]
              && AccumAt(store, ts).Some? && AccumAt(store, ts).value.accum == stored[k - 1].accum
  {
    k := SplitPoint(times, ts);
    EqualOrPrevFinds(store, ts);
    var r := EqualOrPrev(store, ts);
    if k > 0 {
      assert SnapshotAt(store, times[k - 1]);
    }
    if r.Some? {
      assert Splits(times, r.value.time, k);
      assert Holds(strategy, stored, times, r.value);
    }
  }

  lemma {:induction false} CommittedInIsSlice(txns: seq<Value>, times: seq<nat>, from: nat, to: nat, a: nat, b: nat)
    requires |txns| == |times| && from <= to
    requires Splits(times, from, a) && Splits(times, to, b)
    ensures a <= b && CommittedIn(txns, times, from, to) == txns[a..b]
  {
    if b < |times| {
      assert times[b] > to;
    }
    if txns == [] {
    } else {
      var n := |txns| - 1;
      var a', b' := if a == |txns| then n else a, if b == |txns| then n else b;
      CommittedInIsSlice(txns[..n], times[..n], from, to, a', b');
      assert txns[..n][a'..b'] == txns[a'..b'];
      if a < |txns| == b {
        assert txns[a..b] == txns[a..n] + [txns[n]];
      }
    }
  }

  /** A query with both timestamps at or after the first entry compares two stored entries. */
  lemma QueryComparesEntries(strategy: Strategy, stored: seq<Value>, times: seq<nat>, store: seq<Snapshot>,
                             from: nat, to: nat) returns (a: nat, b: nat)
    requires Records(strategy, stored, times, store)
    requires |times| > 0 && 0 < from <= to && times[0] <= from
    ensures 0 < a <= |times| && 0 < b <= |times| && Splits(times, from, a) && Splits(times, to, b)
    ensures AccumAt(store, from).Some? && AccumAt(store, from).value.accum == stored[a - 1].accum
    ensures AccumAt(store, to).Some? && AccumAt(store, to).value.accum == stored[b - 1].accum
    ensures GetResult(store, Some(from), to) ==
            Some(Answer(AccumOnly(AccumAt(store, to).value), Between(GetDelta(strategy, stored[b - 1], stored[a - 1])),
                        Some(AccumAt(store, from))))
  {
    a := EntryInForce(strategy, stored, times, store, from);
    b := EntryInForce(strategy, stored, times, store, to);
  }

  /** Its answer is the net effect of exactly the transactions committed after FROM and up to
      TO, and that effect turns the kept indices at FROM into those at TO. */
  lemma DeltaQueryIsNetEffect(strategy: Strategy, txns: seq<Value>, stored: seq<Value>, times: seq<nat>,
                              store: seq<Snapshot>, from: nat, to: nat) returns (a: nat, b: nat)
    requires History(strategy, txns, stored) && Records(strategy, stored, times, store)
    requires |times| > 0 && 0 < from <= to && times[0] <= from
    ensures var reply := GetResult(store, Some(from), to);
            && reply.Some? && reply.value.Answer?
            && reply.value.changes == Between(Net(CommittedIn(txns, times, from, to)))
    ensures 0 < a <= |times| && 0 < b <= |times| && Splits(times, from, a) && Splits(times, to, b)
    ensures Apply(strategy, Net(CommittedIn(txns, times, from, to)), SetOf(Kept(strategy, stored[a - 1])))
            == SetOf(Kept(strategy, stored[b - 1]))
  {
    a, b := QueryComparesEntries(strategy, stored, times, store, from, to);
    CommittedInIsSlice(txns, times, from, to, a, b);
    DeltaIsNetEffect(strategy, txns, stored, a - 1, b - 1);
    DeltaLeadsFromOneToTheOther(strategy, stored[a - 1], stored[b - 1]);
  }

  /** Without a usable FROM the stored lists are returned as they are; after the first entry
      that is one list, the kept indices, and an empty one. */
  lemma QueryWithoutFrom(strategy: Strategy, txns: seq<Value>, stored: seq<Value>, times: seq<nat>,
                         store: seq<Snapshot>, from: Option<nat>, to: nat) returns (b: nat)
    requires History(strategy, txns, stored) && Records(strategy, stored, times, store)
    requires |times| > 0 && times[0] <= to
    requires from.Some? ==> from.value == 0 || from.value < times[0]
    ensures 0 < b <= |times| && Splits(times, to, b)
    ensures EntryAt(store, to).Some? && EntryAt(store, to).value.value == stored[b - 1]
    ensures var reply := GetResult(store, from, to);
            && reply.Some? && reply.value.Answer?
            && reply.value.accumTo == FullEntry(EntryAt(store, to).value)
            && reply.value.changes == Stored(stored[b - 1].Issued(), stored[b - 1].Revoked())
    ensures b > 1 ==> Taken(strategy, stored[b - 1]) == []
  {
    b := EntryInForce(strategy, stored, times, store, to);
    if from.Some? {
      var a := EntryInForce(strategy, stored, times, store, from.value);
    }
    if b > 1 {
      IndicesAreConserved(strategy, txns, stored, b - 1);
    }
  }

  /** Before the first entry there is nothing to report, also when earlier batches of other
      transactions have left snapshots; only the accumulator at FROM is repeated, which exists
      only if FROM, against what the handler admits, is the later time. */
  lemma QueryBeforeFirstEntry(strategy: Strategy, stored: seq<Value>, times: seq<nat>,
                              store: seq<Snapshot>, from: Option<nat>, to: nat) returns (a: nat)
    requires Records(strategy, stored, times, store)
    requires |times| > 0 ==> to < times[0]
    ensures from.None? ==> GetResult(store, from, to) == None
    ensures from.Some? ==>
              && Splits(times, from.value, a) && a <= |times|
              && GetResult(store, from, to).Some? && GetResult(store, from, to).value.NothingYet?
              && var earlier := GetResult(store, from, to).value.accumFromThen;
                 if a == 0 then earlier == None else earlier.Some? && earlier.value.accum == stored[a - 1].accum
    ensures from.Some? && from.value <= to ==> GetResult(store, from, to) == Some(NothingYet(None))
  {
    var b := EntryInForce(strategy, stored, times, store, to);
    a := 0;
    if from.Some? {
      a := EntryInForce(strategy, stored, times, store, from.value);
    }
  }
}
