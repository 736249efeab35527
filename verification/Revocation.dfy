/**
 Revocation registry entries: which entry may follow the current one, what is then stored,
 and the two dual ways to store it.  A registry issued by default keeps its revoked indices
 (`RevokedStrategy`); one issued on demand keeps its issued indices (`IssuedStrategy`).
 */
module Revocation {
  import opened Basics
  import opened CompatSets

  datatype Strategy = RevokedStrategy | IssuedStrategy

  /** The `value` of a REVOC_REG_ENTRY, in a transaction and in the state. */
  datatype Value = Value(accum: string, prevAccum: Option<string>,
                         issuedList: Option<seq<int>>, revokedList: Option<seq<int>>)
  {
    function Issued(): seq<int> {
      if issuedList.Some? then issuedList.value else []
    }

    function Revoked(): seq<int> {
      if revokedList.Some? then revokedList.value else []
    }
  }

  datatype Verdict =
    | Accepted
    | IndexInBothLists
    | NoPreviousEntry
    | WrongPreviousAccum
    | EmptyLists
    | SameAccum
    | UnknownIndices
    | RepeatedIndices

  // ---------- validation ----------

  /** The list that a strategy keeps in the state; in a transaction, the indices it adds there. */
  function Kept(strategy: Strategy, v: Value): seq<int> {
    if strategy.RevokedStrategy? then v.Revoked() else v.Issued()
  }

  /** The other list: in a transaction, the indices it takes out of the kept ones. */
  function Taken(strategy: Strategy, v: Value): seq<int> {
    if strategy.RevokedStrategy? then v.Issued() else v.Revoked()
  }

  function ToSet(s: seq<int>): (r: set<int>)
    ensures r == SetOf(s)
  {
    set x | x in s
  }

  function Validate(strategy: Strategy, current: Option<Value>, txn: Value): Verdict {
    if ToSet(txn.Issued()) * ToSet(txn.Revoked()) != {} then IndexInBothLists
    else if txn.prevAccum.Some? && current.None? then NoPreviousEntry
    else if current.None? then Accepted
    else if Some(current.value.accum) != txn.prevAccum then WrongPreviousAccum
    else if txn.Issued() == [] && txn.Revoked() == [] then EmptyLists
    else if txn.prevAccum == Some(txn.accum) then SameAccum
    else SpecificValidation(strategy, current.value, txn)
  }

  function SpecificValidation(strategy: Strategy, current: Value, txn: Value): Verdict {
    var indices := ToSet(Kept(strategy, current));
    if ToSet(Taken(strategy, txn)) - indices != {} then UnknownIndices
    else if indices * ToSet(Kept(strategy, txn)) != {} then RepeatedIndices
    else Accepted
  }

  /** The first entry of a registry may be anything that names no previous accumulator and has
      no index in both lists; in particular both lists may be empty. */
  lemma FirstAcceptedIff(strategy: Strategy, txn: Value)
    ensures Validate(strategy, None, txn) == Accepted
            <==> txn.prevAccum.None? && SetOf(txn.Issued()) !! SetOf(txn.Revoked())
  {
    EmptyMeet(SetOf(txn.Issued()), SetOf(txn.Revoked()));
  }

  /** A rejection names a fault that the entry has. */
  lemma RejectionNamesAFault(strategy: Strategy, current: Option<Value>, txn: Value)
    ensures match Validate(strategy, current, txn)
            case Accepted => true
            case IndexInBothLists => Share(txn.Issued(), txn.Revoked())
            case NoPreviousEntry => current.None? && txn.prevAccum.Some?
            case WrongPreviousAccum => current.Some? && txn.prevAccum != Some(current.value.accum)
            case EmptyLists => current.Some? && txn.Issued() == [] && txn.Revoked() == []
            case SameAccum => current.Some? && txn.accum == current.value.accum
            case UnknownIndices => current.Some? && Exceeds(Taken(strategy, txn), Kept(strategy, current.value))
            case RepeatedIndices => current.Some? && Share(Kept(strategy, current.value), Kept(strategy, txn))
  {
    SharedElement(txn.Issued(), txn.Revoked());
    if current.Some? {
      MissingElement(Taken(strategy, txn), Kept(strategy, current.value));
      SharedElement(Kept(strategy, current.value), Kept(strategy, txn));
    }
  }

  // ---------- writing ----------

  const HASH_MODULUS := 2305843009213693951

  /** Python's hash of a natural number. */
  function PyHash(x: int): nat {
    if x < 0 then 0 else x % HASH_MODULUS
  }

  /** The kept list after a transaction: old minus taken plus put, each index once. */
  ghost predicate NewIndices(indices: seq<int>, taken: seq<int>, put: seq<int>, list: seq<int>) {
    Distinct(list) && SetOf(list) == (SetOf(indices) - SetOf(taken)) + SetOf(put)
  }

  /** The order-preserving path through the compatibility set.  Indices are natural numbers:
      a negative one has a negative hash, on which probing need not end. */
  method LegacyIndices(indices: seq<int>, taken: seq<int>, put: seq<int>) returns (list: seq<int>)
    requires forall x :: x in indices || x in taken || x in put ==> 0 <= x
    ensures NewIndices(indices, taken, put, list)
  {
    var current := new CompatSet(PyHash, OfIterable(indices));
    var result := current.Difference([OfIterable(taken)]);
    assert result.Contents() == SetOf(indices) - SetOf(taken) by {
      assert [OfIterable(taken)][0].Elements() == SetOf(taken);
    }
    result.Update(OfIterable(put));
    list := result.ToList();
  }

  /** The sorted path through a Python set. */
  method SortedIndices(indices: seq<int>, taken: seq<int>, put: seq<int>) returns (list: seq<int>)
    ensures NewIndices(indices, taken, put, list)
    ensures Ascending(list)
  {
    var result := (ToSet(indices) - ToSet(taken)) + ToSet(put);
    list := SortedList(result);
  }

  /** The stored value that follows `current` by `txn`. */
  ghost predicate Written(strategy: Strategy, current: Option<Value>, txn: Value, stored: Value) {
    if current.None? then stored == txn else
      && stored.accum == txn.accum && stored.prevAccum == txn.prevAccum
      && NewIndices(Kept(strategy, current.value), Taken(strategy, txn), Kept(strategy, txn), Kept(strategy, stored))
      && Taken(strategy, stored) == []
  }

  /** The two write paths store permutations of one another, whatever order the list they
      start from was in. */
  lemma OrderingOnlyPermutes(strategy: Strategy, c1: Value, c2: Value, txn: Value, s1: Value, s2: Value)
    requires SetOf(Kept(strategy, c1)) == SetOf(Kept(strategy, c2))
    requires Written(strategy, Some(c1), txn, s1) && Written(strategy, Some(c2), txn, s2)
    ensures multiset(Kept(strategy, s1)) == multiset(Kept(strategy, s2))
    ensures Taken(strategy, s1) == Taken(strategy, s2) && s1.accum == s2.accum && s1.prevAccum == s2.prevAccum
  {
    SameSetSameMultiset(Kept(strategy, s1), Kept(strategy, s2));
  }

  // ---------- the state store ----------

  datatype Txn = Txn(defId: string, value: Value, seqNo: nat, time: nat)
  datatype EntryRecord = EntryRecord(value: Value, seqNo: nat, time: nat)
  datatype AccumRecord = AccumRecord(accum: string, seqNo: nat, time: nat)

  class State {
    var entries: map<string, EntryRecord>
    var accums: map<string, AccumRecord>

    /** The accumulator record of every registry repeats its full entry. */
    ghost predicate Agrees()
      reads this
    {
      && entries.Keys == accums.Keys
      && forall id :: id in entries ==>
           accums[id] == AccumRecord(entries[id].value.accum, entries[id].seqNo, entries[id].time)
    }

    constructor ()
      ensures Agrees() && entries == map[]
    {
      entries := map[];
      accums := map[];
    }

    function Current(id: string): (c: Option<Value>)
      reads this
      ensures c.Some? <==> id in entries
    {
      if id in entries then Some(entries[id].value) else None
    }

    method Write(strategy: Strategy, sortLegacy: bool, txn: Txn)
      requires Agrees()
      requires sortLegacy && txn.defId in entries ==>
                 forall x :: x in Kept(strategy, entries[txn.defId].value) || x in txn.value.Issued() || x in txn.value.Revoked()
                   ==> 0 <= x
      modifies this
      ensures Agrees()
      ensures exists stored :: Written(strategy, old(Current(txn.defId)), txn.value, stored)
                && entries == old(entries)[txn.defId := EntryRecord(stored, txn.seqNo, txn.time)]
                && (!sortLegacy && old(txn.defId in entries) ==> Ascending(Kept(strategy, stored)))
    {
      var value := txn.value;
      if txn.defId in entries {
        var indices := Kept(strategy, entries[txn.defId].value);
        var result;
        if sortLegacy {
          result := LegacyIndices(indices, Taken(strategy, value), Kept(strategy, value));
        } else {
          result := SortedIndices(indices, Taken(strategy, value), Kept(strategy, value));
        }
        value := match strategy
          case RevokedStrategy => value.(issuedList := Some([]), revokedList := Some(result))
          case IssuedStrategy => value.(revokedList := Some([]), issuedList := Some(result));
      }
      assert Written(strategy, Current(txn.defId), txn.value, value);
      SetToState(txn.(value := value));
    }

    /** Validation against the current entry, then the write if it is accepted. */
    method Submit(strategy: Strategy, sortLegacy: bool, txn: Txn) returns (verdict: Verdict)
      requires Agrees()
      requires sortLegacy && txn.defId in entries ==>
                 forall x :: x in Kept(strategy, entries[txn.defId].value) || x in txn.value.Issued() || x in txn.value.Revoked()
                   ==> 0 <= x
      modifies this
      ensures Agrees()
      ensures verdict == Validate(strategy, old(Current(txn.defId)), txn.value)
      ensures old(Current(txn.defId)).None? ==>
                (verdict == Accepted
                 <==> txn.value.prevAccum.None? && SetOf(txn.value.Issued()) !! SetOf(txn.value.Revoked()))
      ensures verdict != Accepted ==> unchanged(this)
      ensures verdict == Accepted ==>
                && Current(txn.defId).Some?
                && Written(strategy, old(Current(txn.defId)), txn.value, Current(txn.defId).value)
                && forall id :: id != txn.defId ==> Current(id) == old(Current(id))
    {
      verdict := Validate(strategy, Current(txn.defId), txn.value);
      FirstAcceptedIff(strategy, txn.value);
      if verdict == Accepted {
        Write(strategy, sortLegacy, txn);
      }
    }

    method SetToState(txn: Txn)
      requires Agrees()
      modifies this
      ensures Agrees()
      ensures entries == old(entries)[txn.defId := EntryRecord(txn.value, txn.seqNo, txn.time)]
    {
      entries := entries[txn.defId := EntryRecord(txn.value, txn.seqNo, txn.time)];
      accums := accums[txn.defId := AccumRecord(txn.value.accum, txn.seqNo, txn.time)];
    }
  }
}
