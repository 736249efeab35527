/**
 The compatibility set: a mutable open-addressing hash table that must behave as a
 mathematical set.  `hash` stands for Python's `hash` on the element type, restricted to
 non-negative values (module ProbePath shows what a negative one does).
 */
module CompatSets {
  import opened Basics
  import opened ProbePath
  import opened ProbeTable
  import opened EntrySets

  // ---------- operands ----------

  /** What the bulk operations accept: another compatibility set, a Python set, or any other
      iterable, given by the elements it yields. */
  datatype Operand<!E(==,!new)> = OfCompatSet(inner: Inner<E>) | OfSet(elems: set<E>) | OfIterable(list: seq<E>)
  {
    ghost function Frame(): set<object>
      reads if OfCompatSet? then {inner} else {}
    {
      if OfCompatSet? then {inner, inner.table} else {}
    }

    ghost predicate Valid(hash: E -> nat)
      reads if OfCompatSet? then {inner} else {}, Frame()
    {
      OfCompatSet? ==> inner.Valid() && inner.hash == hash
    }

    ghost function Elements(): set<E>
      reads if OfCompatSet? then {inner} else {}, Frame()
    {
      match this
      case OfCompatSet(inner) => inner.Contents()
      case OfSet(elems) => elems
      case OfIterable(list) => SetOf(list)
    }

    /** What a symmetric-difference update toggles. */
    ghost function Toggled(): set<E>
      reads if OfCompatSet? then {inner} else {}, Frame()
    {
      if OfIterable? then OddOnes(list) else Elements()
    }

    /** Membership in a set operand. */
    method Holds(entry: Entry<E>, hash: E -> nat) returns (b: bool)
      requires Valid(hash) && !OfIterable?
      requires entry.hash == hash(entry.elem)
      ensures b <==> entry.elem in Elements()
    {
      if OfCompatSet? {
        b := inner.ContainsEntry(entry);
        ElemsUpdate(inner.Entries(), hash, entry.elem);
      } else {
        b := entry.elem in elems;
      }
    }

    /** The elements in iteration order; a Python set yields them in some order. */
    method Iterate(hash: E -> nat) returns (list: seq<E>)
      requires Valid(hash)
      ensures SetOf(list) == Elements()
      ensures OfIterable? ==> list == this.list
      ensures !OfIterable? ==> Distinct(list)
    {
      match this
      case OfCompatSet(inner) =>
        list := inner.ToList();
      case OfSet(elems) =>
        list := [];
        var rest := elems;
        while rest != {}
          invariant rest <= elems && SetOf(list) == elems - rest && Distinct(list)
          decreases rest
        {
          var x :| x in rest;
          assert SetOf(list + [x]) == SetOf(list) + {x};
          list, rest := list + [x], rest - {x};
        }
      case OfIterable(l) =>
        list := l;
    }
  }

  class Inner<E(==,!new)> {
    const hash: E -> nat
    var fill: nat
    var mask: nat
    var search: nat
    var table: array<Slot<E>>
    var used: nat

    /** The representation is sound and has an empty slot, whatever its load. */
    ghost predicate Sound()
      reads this, table
    {
      && table.Length == mask + 1
      && Consistent(table[..])
      && Hashed(Entries(), hash)
      && fill == Filled(table[..])
      && used == |Live(table[..])|
      && fill <= mask
    }

    /** What every public operation keeps: sound, and less than two thirds full. */
    ghost predicate Valid()
      reads this, table
    {
      Sound() && fill * 3 < (mask + 1) * 2
    }

    ghost function Entries(): set<Entry<E>>
      reads this, table
    {
      Members(table[..])
    }

    ghost function Contents(): set<E>
      reads this, table
    {
      Elems(Entries())
    }

    constructor (hash: E -> nat)
      ensures this.hash == hash
      ensures Valid() && Contents() == {} && Entries() == {} && fill == 0 && used == 0
      ensures fresh(table)
      ensures mask == MIN_SIZE - 1
    {
      this.hash := hash;
      fill := 0;
      mask := MIN_SIZE - 1;
      search := 0;
      table := new Slot<E>[MIN_SIZE](_ => Empty);
      used := 0;
      new;
      assert MIN_SIZE == Pow2(3);
      BlankIsConsistent(table[..]);
    }

    /** The linear run of a lookup: the nine slots behind head `i`. */
    method LookRun(entry: Entry<E>, i: nat, free: Option<nat>) returns (found: Option<nat>, freeIdx: Option<nat>)
      requires i + LINEAR_PROBES < table.Length
      ensures found.Some? ==>
                && i < found.value <= i + LINEAR_PROBES
                && Stops(table[..], entry, found.value)
                && NoStopIn(table[..], entry, i + 1, found.value)
      ensures found.None? ==> NoStopIn(table[..], entry, i + 1, i + LINEAR_PROBES + 1)
    {
      freeIdx := free;
      for j := i + 1 to i + LINEAR_PROBES + 1
        invariant NoStopIn(table[..], entry, i + 1, j)
      {
        if table[j].Empty? {
          // free_idx is recorded and then ignored: both alternatives return j
          return Some(if freeIdx.None? then j else j), freeIdx;
        } else if table[j].Removed? && freeIdx.None? {
          freeIdx := Some(j);
        } else if table[j] == Full(entry) {
          return Some(j), freeIdx;
        }
      }
      found := None;
    }

    /** Finds the entry, or the empty slot where it belongs. */
    method LookEntry(entry: Entry<E>) returns (index: nat)
      requires Sound()
      ensures index < table.Length && Looks(table[..], entry, index)
      ensures entry in Entries() <==> table[index] == Full(entry)
      ensures entry !in Entries() <==> table[index].Empty?
    {
      ghost var t := table[..];
      var freeIdx: Option<nat> := None;
      var i := entry.hash % (mask + 1);
      var perturb := entry.hash;
      ghost var n: nat := 0;
      ghost var last := SomeHeadIsEmpty(t, entry.hash);
      while true
        invariant i == Head(entry.hash, |t|, n) && perturb == Perturb(entry.hash, n)
        invariant n <= last
        invariant NoStopBefore(t, entry, n, 0)
        decreases last - n
      {
        if table[i].Empty? {
          index := if freeIdx.None? then i else i;
          HeadFinds(t, entry, n);
          break;
        } else if table[i].Removed? && freeIdx.None? {
          freeIdx := Some(i);
        } else if table[i] == Full(entry) {
          index := i;
          HeadFinds(t, entry, n);
          break;
        }
        if i + LINEAR_PROBES <= mask {
          var found;
          found, freeIdx := LookRun(entry, i, freeIdx);
          if found.Some? {
            index := found.value;
            RunFinds(t, entry, n, index);
            break;
          }
        }
        StepPasses(t, entry, n);
        perturb := perturb / PERTURB_DIVISOR;
        i := NextHead(i, perturb, mask + 1);
        n := n + 1;
      }
      LookupIsMembership(t, entry, index);
    }

    /** The linear run of a clean insert. */
    method EmptyInRun(i: nat) returns (found: Option<nat>)
      requires i + LINEAR_PROBES < table.Length
      ensures found.Some? ==>
                && i < found.value <= i + LINEAR_PROBES
                && table[found.value].Empty?
                && NoEmptyIn(table[..], i + 1, found.value)
      ensures found.None? ==> NoEmptyIn(table[..], i + 1, i + LINEAR_PROBES + 1)
    {
      for j := i + 1 to i + LINEAR_PROBES + 1
        invariant NoEmptyIn(table[..], i + 1, j)
      {
        if table[j].Empty? {
          return Some(j);
        }
      }
      found := None;
    }

    /** The slot where an entry known to be absent goes: the one a lookup would end at. */
    method CleanSlot(entry: Entry<E>) returns (found: nat)
      requires Sound() && entry !in Entries()
      ensures FirstEmpty(table[..], entry.hash, found)
      ensures Looks(table[..], entry, found)
    {
      ghost var t := table[..];
      var i := entry.hash % (mask + 1);
      var perturb := entry.hash;
      ghost var n: nat := 0;
      ghost var last := SomeHeadIsEmpty(t, entry.hash);
      while true
        invariant i == Head(entry.hash, |t|, n) && perturb == Perturb(entry.hash, n)
        invariant n <= last
        invariant NoEmptyBefore(t, entry.hash, n, 0)
        decreases last - n
      {
        if table[i].Empty? {
          found := i;
          HeadFindsEmpty(t, entry.hash, n);
          break;
        }
        if i + LINEAR_PROBES <= mask {
          var inRun := EmptyInRun(i);
          if inRun.Some? {
            found := inRun.value;
            RunFindsEmpty(t, entry.hash, n, found);
            break;
          }
        }
        StepPassesEmpty(t, entry.hash, n);
        perturb := perturb / PERTURB_DIVISOR;
        i := NextHead(i, perturb, mask + 1);
        n := n + 1;
      }
      CleanSearchIsLookup(t, entry, found);
    }

    method ContainsEntry(entry: Entry<E>) returns (b: bool)
      requires Sound()
      ensures b <==> entry in Entries()
    {
      var index := LookEntry(entry);
      var found := table[index];
      b := !found.Empty? && !found.Removed?;
    }

    method Contains(elem: E) returns (b: bool)
      requires Sound()
      ensures b <==> elem in Contents()
    {
      b := ContainsEntry(Entry(elem, hash(elem)));
      ElemsUpdate(Entries(), hash, elem);
    }

    /** Stores an absent entry in the slot where lookups will find it. */
    method Store(entry: Entry<E>, index: nat)
      requires Sound() && fill < mask
      requires entry.hash == hash(entry.elem) && entry !in Entries()
      requires FirstEmpty(table[..], entry.hash, index)
      modifies this`fill, this`used, table
      ensures Sound()
      ensures Entries() == old(Entries()) + {entry}
      ensures fill == old(fill) + 1 && used == old(used) + 1
    {
      ghost var t := table[..];
      InsertKeeps(t, entry, index);
      CountsUpdate(t, index, Full(entry));
      table[index] := Full(entry);
      fill := fill + 1;
      used := used + 1;
      assert table[..] == t[index := Full(entry)];
    }

    method InsertEntry(entry: Entry<E>) returns (inserted: bool)
      requires Sound() && fill < mask
      requires entry.hash == hash(entry.elem)
      modifies this`fill, this`used, table
      ensures Sound()
      ensures Entries() == old(Entries()) + {entry}
      ensures inserted <==> entry !in old(Entries())
      ensures fill == old(fill) + (if inserted then 1 else 0)
      ensures used == old(used) + (if inserted then 1 else 0)
    {
      var index := LookEntry(entry);
      var found := table[index];
      if found.Empty? {
        CleanSearchIsLookup(table[..], entry, index);
        Store(entry, index);
        inserted := true;
      } else if found.Removed? {
        // a lookup never ends at a tombstone, so tombstones are never reused
        assert false;
      } else {
        inserted := false;
      }
    }

    method InsertEntryClean(entry: Entry<E>)
      requires Sound() && fill < mask
      requires entry.hash == hash(entry.elem) && entry !in Entries()
      modifies this`fill, this`used, table
      ensures Sound()
      ensures Entries() == old(Entries()) + {entry}
      ensures fill == old(fill) + 1 && used == old(used) + 1
    {
      var found := CleanSlot(entry);
      Store(entry, found);
    }

    method DiscardEntry(entry: Entry<E>) returns (removed: bool)
      requires Sound()
      modifies this`used, table
      ensures Sound()
      ensures Entries() == old(Entries()) - {entry}
      ensures removed <==> entry in old(Entries())
    {
      var index := LookEntry(entry);
      var found := table[index];
      if !found.Empty? && !found.Removed? {
        Bury(index);
        removed := true;
      } else {
        removed := false;
      }
    }

    /** Turns a live slot into a tombstone. */
    method Bury(index: nat)
      requires Sound() && index < table.Length && table[index].Full?
      modifies this`used, table
      ensures Sound()
      ensures Entries() == old(Entries()) - {old(table[index].entry)}
      ensures used == old(used) - 1
    {
      ghost var t := table[..];
      RemoveKeeps(t, index);
      CountsUpdate(t, index, Removed);
      table[index] := Removed;
      used := used - 1;
      assert table[..] == t[index := Removed];
    }

    /** The first doubling of the minimum size above `minUsed`. */
    static ghost function SizeFor(minUsed: nat, size: nat): (r: nat)
      requires 0 < size
      ensures minUsed < r && size <= r
      decreases minUsed + 1 - size
    {
      if size <= minUsed then SizeFor(minUsed, size * 2) else size
    }

    static method SizeAbove(minUsed: nat) returns (newSize: nat)
      ensures newSize == SizeFor(minUsed, MIN_SIZE) && IsPow2(newSize)
      ensures newSize == MIN_SIZE || newSize <= 2 * minUsed
    {
      newSize := MIN_SIZE;
      ghost var k: nat := 3;
      assert MIN_SIZE == Pow2(3);
      while newSize <= minUsed
        invariant MIN_SIZE <= newSize == Pow2(k)
        invariant SizeFor(minUsed, newSize) == SizeFor(minUsed, MIN_SIZE)
        invariant newSize == MIN_SIZE || newSize <= 2 * minUsed
        decreases minUsed + 1 - newSize
      {
        newSize := newSize * 2;
        k := k + 1;
      }
    }

    /** Reallocates to more than `minUsed` slots, dropping all tombstones.  The live entries must
        leave a slot of the new table empty. */
    method Resize(minUsed: nat)
      requires Sound() && used < SizeFor(minUsed, MIN_SIZE)
      modifies this, table
      ensures Sound() && fresh(table)
      ensures Entries() == old(Entries())
      ensures fill == used == old(used)
      ensures mask + 1 == SizeFor(minUsed, MIN_SIZE)
      ensures used * 2 <= minUsed ==> Valid()
      ensures search == old(search)
    {
      var oldTable := table;
      ghost var t := table[..];
      var newSize := SizeAbove(minUsed);
      table := new Slot<E>[newSize](_ => Empty);
      fill := 0;
      mask := newSize - 1;
      used := 0;
      BlankIsConsistent(table[..]);
      ghost var newTable := table;
      for k := 0 to oldTable.Length
        invariant oldTable[..] == t && table == newTable && mask == newSize - 1 && search == old(search)
        invariant Sound()
        invariant Entries() == Members(t[..k])
        invariant fill == used == |Live(t[..k])|
      {
        NextPrefix(t, k);
        LivePrefix(t, k + 1);
        if oldTable[k].Full? {
          assert oldTable[k].entry in Members(t);
          InsertEntryClean(oldTable[k].entry);
        }
      }
      assert t[..|t|] == t;
    }

    method Grow()
      requires Sound()
      modifies this, table
      ensures Valid() && fresh(table)
      ensures Entries() == old(Entries())
      ensures fill == used == old(used)
      ensures mask + 1 == SizeFor(old(used) * (if old(used) > 50000 then 2 else 4), MIN_SIZE)
    {
      var sz := if used > 50000 then used * 2 else used * 4;
      Resize(sz);
    }

    method AddEntry(entry: Entry<E>)
      requires Valid() && entry.hash == hash(entry.elem)
      modifies this, table
      ensures Valid()
      ensures Entries() == old(Entries()) + {entry}
      ensures table == old(table) || fresh(table)
      ensures (old(fill) + 1) * 3 < (old(mask) + 1) * 2 ==>
                table == old(table) && mask == old(mask) && fill - used == old(fill) - old(used)
    {
      var inserted := InsertEntry(entry);
      if inserted && fill * 3 >= (mask + 1) * 2 {
        Grow();
      }
    }

    method Add(elem: E)
      requires Valid()
      modifies this, table
      ensures Valid()
      ensures Contents() == old(Contents()) + {elem}
      ensures table == old(table) || fresh(table)
    {
      ElemsUpdate(Entries(), hash, elem);
      AddEntry(Entry(elem, hash(elem)));
    }

    method Discard(elem: E) returns (removed: bool)
      requires Valid()
      modifies this`used, table
      ensures Valid()
      ensures Contents() == old(Contents()) - {elem}
      ensures removed <==> elem in old(Contents())
    {
      ElemsUpdate(Entries(), hash, elem);
      removed := DiscardEntry(Entry(elem, hash(elem)));
    }

    // ---------- bulk merge ----------

    lemma NoLiveNoEntries()
      requires Sound() && used == 0
      ensures Entries() == {}
    {
      LiveCardinality(table[..]);
    }

    method Merge(other: Inner<E>)
      requires Valid() && other.Valid() && other.hash == hash
      requires other != this ==> other.table != table
      modifies this, table
      ensures Valid()
      ensures Entries() == old(Entries()) + old(other.Entries())
      ensures table == old(table) || fresh(table)
    {
      if other == this || other.used == 0 {
        if other != this {
          other.NoLiveNoEntries();
        }
        return;
      }
      if (fill + other.used) * 3 >= (mask + 1) * 2 {
        Resize((used + other.used) * 2);
      }
      MergeFitting(other);
    }

    /** The rest of a merge, once the table is large enough for all entries of `other`. */
    method MergeFitting(other: Inner<E>)
      requires Valid()
      requires other.Valid() && other.hash == hash && other.table != table && other != this
      requires (fill + other.used) * 3 < (mask + 1) * 2
      modifies this, table
      ensures Valid()
      ensures Entries() == old(Entries()) + old(other.Entries())
      ensures table == old(table) || fresh(table)
    {
      if fill == 0 {
        LiveIsMembers(table[..]);
        NoLiveNoEntries();
        if mask == other.mask && other.fill == other.used {
          MergeCopy(other);
        } else {
          MergeClean(other);
        }
      } else {
        MergeInsert(other);
      }
    }

    /** The first merge path: the target is empty, the tables have one size and the source
        has no tombstones. */
    method MergeCopy(other: Inner<E>)
      requires Sound() && other.Valid() && other.hash == hash
      requires mask == other.mask
      modifies this
      ensures Valid() && fresh(table)
      ensures Entries() == other.Entries()
      ensures search == old(search) && mask == old(mask)
    {
      ghost var t := other.table[..];
      table := new Slot<E>[other.table.Length](
        i requires 0 <= i < other.table.Length reads this, other, other.table => other.table[i]);
      fill := other.fill;
      used := other.used;
      assert table[..] == t;
    }

    /** The second merge path: the target is empty, so no entry can be a duplicate. */
    method MergeClean(other: Inner<E>)
      requires Sound() && Entries() == {} && fill == used == 0
      requires other.Valid() && other.hash == hash && other.table != table && other != this
      requires (fill + other.used) * 3 < (mask + 1) * 2
      modifies this`fill, this`used, table
      ensures Valid()
      ensures Entries() == other.Entries()
    {
      ghost var t := other.table[..];
      for k := 0 to other.table.Length
        invariant Sound()
        invariant Entries() == Members(t[..k])
        invariant fill == used == |Live(t[..k])|
      {
        NextPrefix(t, k);
        LivePrefix(t, k + 1);
        if other.table[k].Full? {
          assert t[k].entry in Members(t);
          InsertEntryClean(other.table[k].entry);
        }
      }
      assert t[..|t|] == t;
    }

    /** The third merge path: ordinary insertions. */
    method MergeInsert(other: Inner<E>)
      requires Sound()
      requires other.Valid() && other.hash == hash && other.table != table && other != this
      requires (fill + other.used) * 3 < (mask + 1) * 2
      modifies this`fill, this`used, table
      ensures Valid()
      ensures Entries() == old(Entries()) + other.Entries()
    {
      ghost var t := other.table[..];
      for k := 0 to other.table.Length
        invariant Sound()
        invariant Entries() == old(Entries()) + Members(t[..k])
        invariant fill <= old(fill) + |Live(t[..k])|
      {
        NextPrefix(t, k);
        LivePrefix(t, k + 1);
        if other.table[k].Full? {
          assert t[k].entry in Members(t);
          var _ := InsertEntry(other.table[k].entry);
        }
      }
      assert t[..|t|] == t;
    }

    method Copy() returns (res: Inner<E>)
      requires Valid()
      ensures fresh(res) && fresh(res.table) && res.hash == hash
      ensures res.Valid() && res.Entries() == Entries()
    {
      res := new Inner(hash);
      res.Merge(this);
    }

    // ---------- iteration and removal ----------

    method Next(pos: nat) returns (pos': nat, entry: Option<Entry<E>>)
      requires Sound() && pos <= table.Length
      ensures pos <= pos' <= table.Length
      ensures entry.None? ==> pos' == table.Length && Live(table[..]) == Live(table[..pos])
      ensures entry.Some? ==>
                && pos < pos'
                && table[pos' - 1] == Full(entry.value)
                && Live(table[..pos']) == Live(table[..pos]) + [entry.value]
    {
      pos' := pos;
      ghost var t := table[..];
      assert t[..pos] == table[..pos];
      while true
        invariant pos <= pos' <= table.Length
        invariant Live(t[..pos']) == Live(t[..pos])
        decreases table.Length - pos'
      {
        if pos' > mask {
          assert t[..pos'] == t;
          return pos', None;
        }
        var slot := table[pos'];
        LiveStep(t, pos');
        pos' := pos' + 1;
        assert t[..pos'] == table[..pos'];
        if slot.Full? {
          return pos', Some(slot.entry);
        }
      }
    }

    /** `list(s)`: iteration yields each member exactly once, in slot order. */
    method ToList() returns (list: seq<E>)
      requires Sound()
      ensures |list| == used == |Contents()|
      ensures forall i :: 0 <= i < |list| ==> list[i] == Live(table[..])[i].elem
      ensures Distinct(list) && SetOf(list) == Contents()
    {
      list := [];
      var pos := 0;
      while true
        invariant pos <= table.Length
        invariant |list| == |Live(table[..pos])|
        invariant forall i :: 0 <= i < |list| ==> list[i] == Live(table[..pos])[i].elem
        decreases table.Length - pos
      {
        ghost var before := Live(table[..pos]);
        var entry;
        pos, entry := Next(pos);
        if entry.None? {
          break;
        }
        list := list + [entry.value.elem];
      }
      ListIsContents(list);
    }

    lemma ListIsContents(list: seq<E>)
      requires Sound()
      requires |list| == |Live(table[..])|
      requires forall i :: 0 <= i < |list| ==> list[i] == Live(table[..])[i].elem
      ensures Distinct(list) && SetOf(list) == Contents()
      ensures |list| == |Contents()|
    {
      var live := Live(table[..]);
      LiveIsMembers(table[..]);
      forall i, j | 0 <= i < j < |list|
        ensures list[i] != list[j]
      {
        assert live[i] in live && live[j] in live;
      }
      forall x
        ensures x in SetOf(list) <==> x in Contents()
      {
        if x in SetOf(list) {
          var i :| 0 <= i < |list| && list[i] == x;
          assert live[i] in live;
        }
        if x in Contents() {
          var e :| e in Entries() && e.elem == x;
          var i :| 0 <= i < |live| && live[i] == e;
          assert list[i] == x;
        }
      }
      DistinctCardinality(list, Contents());
    }

    /** The search of `pop`, from the finger on and round. */
    method NextLive(start: nat) returns (i: nat)
      requires Sound() && used > 0 && start < table.Length
      ensures FirstLiveFrom(table[..], start, i)
    {
      ghost var live := SomeSlotIsLive(table[..]);
      i := start;
      ghost var wrapped := false;
      while !table[i].Full?
        invariant i < table.Length
        invariant !wrapped ==> start <= i && forall k :: start <= k < i ==> !table[k].Full?
        invariant wrapped ==> live < start && i <= live
        invariant wrapped ==> forall k :: 0 <= k < table.Length && (k < i || start <= k) ==> !table[k].Full?
        decreases if i <= live then live - i else live + table.Length - i
      {
        i := i + 1;
        if i > mask {
          i := 0;
          wrapped := true;
        }
      }
    }

    method TakeAt(i: nat) returns (elem: E)
      requires Valid() && i < table.Length && table[i].Full?
      modifies this`used, table
      ensures Valid()
      ensures elem == old(table[i]).entry.elem
      ensures elem in old(Contents()) && Contents() == old(Contents()) - {elem}
    {
      var entry := table[i].entry;
      ElemsUpdate(Entries(), hash, entry.elem);
      assert entry in Entries();
      Bury(i);
      elem := entry.elem;
    }

    method Pop() returns (elem: Option<E>)
      requires Valid()
      modifies this`used, this`search, table
      ensures Valid()
      ensures elem.None? <==> old(Contents()) == {}
      ensures elem.None? ==> Contents() == {}
      ensures elem.Some? ==> elem.value in old(Contents()) && Contents() == old(Contents()) - {elem.value}
      ensures elem.Some? ==>
                && FirstLiveFrom(old(table[..]), old(search) % old(table.Length), search - 1)
                && old(table[..])[search - 1].entry.elem == elem.value
    {
      LiveIsMembers(table[..]);
      LiveCardinality(table[..]);
      if used == 0 {
        return None;
      }
      var i := NextLive(search % (mask + 1));
      var x := TakeAt(i);
      search := i + 1;
      elem := Some(x);
    }

    // ---------- set algebra ----------

    method AddAll(list: seq<E>)
      requires Valid()
      modifies this, table
      ensures Valid()
      ensures Contents() == old(Contents()) + SetOf(list)
      ensures table == old(table) || fresh(table)
    {
      for k := 0 to |list|
        invariant Valid()
        invariant Contents() == old(Contents()) + SetOf(list[..k])
        invariant table == old(table) || fresh(table)
      {
        Add(list[k]);
        assert SetOf(list[..k + 1]) == SetOf(list[..k]) + {list[k]} by {
          assert list[..k + 1] == list[..k] + [list[k]];
        }
      }
      assert list[..|list|] == list;
    }

    method Update(other: Operand<E>)
      requires Valid() && other.Valid(hash)
      requires other.OfCompatSet? && other.inner != this ==> other.inner.table != table
      modifies this, table
      ensures Valid()
      ensures Contents() == old(Contents()) + old(other.Elements())
      ensures table == old(table) || fresh(table)
    {
      if other.OfCompatSet? {
        ElemsUnion(Entries(), other.inner.Entries());
        Merge(other.inner);
        return;
      }
      var list := other.Iterate(hash);
      AddAll(list);
    }

    method DiscardAll(list: seq<E>)
      requires Valid()
      modifies this`used, table
      ensures Valid()
      ensures Contents() == old(Contents()) - SetOf(list)
    {
      for k := 0 to |list|
        invariant Valid()
        invariant Contents() == old(Contents()) - SetOf(list[..k])
      {
        var _ := Discard(list[k]);
        assert SetOf(list[..k + 1]) == SetOf(list[..k]) + {list[k]} by {
          assert list[..k + 1] == list[..k] + [list[k]];
        }
      }
      assert list[..|list|] == list;
    }

    /** Returns this set after the removals, except that a set minus itself is a new set and
        leaves this one as it is. */
    method DifferenceUpdate(other: Operand<E>) returns (res: Inner<E>)
      requires Valid() && other.Valid(hash)
      requires other.OfCompatSet? && other.inner != this ==> other.inner.table != table
      modifies this, table
      ensures res.Valid() && res.hash == hash
      ensures res.Contents() == old(Contents()) - old(other.Elements())
      ensures if other == OfCompatSet(this) then fresh(res) && fresh(res.table) && unchanged(this) && unchanged(old(table))
              else res == this && (table == old(table) || fresh(table))
    {
      if other.OfCompatSet? && other.inner == this {
        res := new Inner(hash);
        return;
      }
      var list := other.Iterate(hash);
      DiscardAll(list);
      if (fill - used) * 5 >= mask {
        Grow();
      }
      res := this;
    }

    method Difference(other: Operand<E>) returns (res: Inner<E>)
      requires Valid() && other.Valid(hash)
      ensures fresh(res) && fresh(res.table) && res.hash == hash
      ensures res.Valid()
      ensures res.Contents() == Contents() - other.Elements()
    {
      if (other.OfCompatSet? && used / 4 <= other.inner.used) || (other.OfSet? && used / 4 <= |other.elems|) {
        res := Filter(other);
      } else {
        res := Copy();
        res := res.DifferenceUpdate(other);
      }
    }

    /** The first strategy of `difference`: keep what the other set does not contain. */
    method Filter(other: Operand<E>) returns (res: Inner<E>)
      requires Valid() && other.Valid(hash) && !other.OfIterable?
      ensures fresh(res) && fresh(res.table) && res.hash == hash
      ensures res.Valid()
      ensures res.Contents() == Contents() - other.Elements()
    {
      res := new Inner(hash);
      ghost var t, b := table[..], other.Elements();
      assert t[..0] == [];
      var pos := 0;
      while true
        invariant fresh(res) && fresh(res.table) && res.hash == hash && res.Valid()
        invariant pos <= table.Length
        invariant res.Entries() == Without(Live(t[..pos]), b)
        decreases table.Length - pos
      {
        ghost var from := pos;
        var entry;
        pos, entry := Next(pos);
        assert table[..pos] == t[..pos] && table[..from] == t[..from];
        if entry.None? {
          break;
        }
        WithoutStep(Live(t[..from]), entry.value, b);
        assert entry.value in Entries();
        var present := other.Holds(entry.value, hash);
        if !present {
          res.AddEntry(entry.value);
        }
      }
      LiveIsMembers(t);
      WithoutElems(Live(t), Entries(), b);
    }

    /** Toggles the elements of the other operand one by one. */
    method SymmetricDifferenceUpdate(other: Operand<E>) returns (res: Inner<E>)
      requires Valid() && other.Valid(hash)
      requires other.OfCompatSet? && other.inner != this ==> other.inner.table != table
      modifies this, table
      ensures res.Valid() && res.hash == hash
      ensures res.Contents() == Xor(old(Contents()), old(other.Toggled()))
      ensures if other == OfCompatSet(this) then fresh(res) && fresh(res.table) && unchanged(this) && unchanged(old(table))
              else res == this && (table == old(table) || fresh(table))
    {
      if other.OfCompatSet? && other.inner == this {
        res := new Inner(hash);
        return;
      }
      var list := other.Iterate(hash);
      if !other.OfIterable? {
        DistinctIsOdd(list);
      }
      ToggleAll(list);
      res := this;
    }

    method Toggle(elem: E)
      requires Valid()
      modifies this, table
      ensures Valid()
      ensures Contents() == Xor(old(Contents()), {elem})
      ensures table == old(table) || fresh(table)
    {
      var removed := Discard(elem);
      if !removed {
        Add(elem);
      }
    }

    method ToggleAll(list: seq<E>)
      requires Valid()
      modifies this, table
      ensures Valid()
      ensures Contents() == Xor(old(Contents()), OddOnes(list))
      ensures table == old(table) || fresh(table)
    {
      for k := 0 to |list|
        invariant Valid()
        invariant Contents() == Xor(old(Contents()), OddOnes(list[..k]))
        invariant table == old(table) || fresh(table)
      {
        OddOnesStep(list, k);
        Toggle(list[k]);
      }
      assert list[..|list|] == list;
    }

    /** `intersection` with an iterable that is not a compatibility set. */
    method Intersection(other: Operand<E>) returns (res: Inner<E>)
      requires Valid() && !other.OfCompatSet?
      ensures fresh(res) && fresh(res.table) && res.hash == hash
      ensures res.Valid()
      ensures res.Contents() == Contents() * other.Elements()
    {
      var list := other.Iterate(hash);
      res := new Inner(hash);
      for k := 0 to |list|
        invariant fresh(res) && fresh(res.table) && res.hash == hash && res.Valid()
        invariant res.Contents() == Contents() * SetOf(list[..k])
      {
        var present := Contains(list[k]);
        assert list[..k + 1] == list[..k] + [list[k]];
        if present {
          res.Add(list[k]);
        }
      }
      assert list[..|list|] == list;
    }

    method Eq(other: Inner<E>) returns (b: bool)
      requires Valid() && other.Valid() && other.hash == hash
      ensures b <==> EqScan(table[..], other.Entries())
      ensures Entries() == other.Entries() ==> b
    {
      LiveCardinality(table[..]);
      LiveCardinality(other.table[..]);
      LiveIsMembers(table[..]);
      if other.used != used {
        return false;
      }
      for pos := 0 to used
        invariant forall p :: 0 <= p < pos && table[p].Full? ==> table[p].entry in other.Entries()
      {
        if table[pos].Full? {
          var present := other.ContainsEntry(table[pos].entry);
          if !present {
            return false;
          }
        }
      }
      return true;
    }
  }

  // ---------- the public class ----------

  class CompatSet<E(==,!new)> {
    var inner: Inner<E>

    ghost predicate Valid()
      reads this, inner, inner.table
    {
      inner.Valid()
    }

    ghost function Contents(): set<E>
      reads this, inner, inner.table
    {
      inner.Contents()
    }

    /** `CompatSet(elems)`. */
    constructor (hash: E -> nat, elems: Operand<E>)
      requires elems.Valid(hash)
      ensures Valid() && fresh(inner) && fresh(inner.table) && inner.hash == hash
      ensures Contents() == elems.Elements()
    {
      var i := new Inner(hash);
      i.Update(elems);
      inner := i;
    }

    constructor FromInner(inner: Inner<E>)
      requires inner.Valid()
      ensures this.inner == inner
    {
      this.inner := inner;
    }

    ghost predicate Apart(other: Operand<E>)
      reads this, inner, if other.OfCompatSet? then {other.inner} else {}
    {
      other.OfCompatSet? && other.inner != inner ==> other.inner.table != inner.table
    }

    method Update(other: Operand<E>)
      requires Valid() && other.Valid(inner.hash) && Apart(other)
      modifies inner, inner.table
      ensures Valid() && inner.hash == old(inner.hash)
      ensures Contents() == old(Contents()) + old(other.Elements())
      ensures inner.table == old(inner.table) || fresh(inner.table)
    {
      inner.Update(other);
    }

    /** `difference(*others)`. */
    method Difference(others: seq<Operand<E>>) returns (res: CompatSet<E>)
      requires Valid()
      requires forall k :: 0 <= k < |others| ==> others[k].Valid(inner.hash)
      ensures fresh(res) && fresh(res.inner) && fresh(res.inner.table) && res.inner.hash == inner.hash
      ensures res.Valid()
      ensures forall x :: x in res.Contents() <==>
                x in Contents() && forall k :: 0 <= k < |others| ==> x !in old(others[k].Elements())
    {
      var i;
      if |others| == 0 {
        i := inner.Copy();
      } else {
        i := inner.Difference(others[0]);
        ghost var gone := others[0].Elements();
        for k := 1 to |others|
          invariant fresh(i) && fresh(i.table) && i.hash == inner.hash && i.Valid()
          invariant i.Contents() == old(Contents()) - gone
          invariant forall x :: x in gone <==> exists j :: 0 <= j < k && x in old(others[j].Elements())
        {
          ghost var more := others[k].Elements();
          i := i.DifferenceUpdate(others[k]);
          gone := gone + more;
        }
      }
      res := new CompatSet.FromInner(i);
    }

    /** Exact for every operand: the update below works on a set without repetitions. */
    method SymmetricDifference(other: Operand<E>) returns (res: CompatSet<E>)
      requires Valid() && other.Valid(inner.hash)
      ensures fresh(res) && fresh(res.inner) && fresh(res.inner.table)
      ensures res.Valid()
      ensures res.Contents() == Xor(Contents(), other.Elements())
    {
      ghost var a, b := Contents(), other.Elements();
      var i := new Inner(inner.hash);
      i.Update(other);
      assert i.Contents() == b;
      i := i.SymmetricDifferenceUpdate(OfCompatSet(inner));
      assert i.Contents() == Xor(b, a) == Xor(a, b);
      res := new CompatSet.FromInner(i);
    }

    method ToList() returns (list: seq<E>)
      requires Valid()
      ensures |list| == |Contents()| && Distinct(list) && SetOf(list) == Contents()
    {
      list := inner.ToList();
    }
  }

  /** Adding 0 to a new set of integers gives the table in which -8 cannot be added. */
  method TableOfZero(hash: int -> nat) returns (c: Inner<int>)
    requires hash(0) == 0
    ensures c.Valid()
    ensures NoTombstones(c.table[..]) && |c.table[..]| == 8 && Members(c.table[..]) == {Entry(0, 0)}
  {
    c := new Inner(hash);
    c.AddEntry(Entry(0, hash(0)));
    NoTombstonesCounts(c.table[..]);
  }

  // ---------- every run ----------

  /** The operations on a set, with any operand; `Itself` stands for the set itself. */
  datatype Op<!E(==,!new)> =
    | Adding(elem: E)
    | Discarding(elem: E)
    | Popping
    | Merging(other: Operand<E>)
    | Subtracting(other: Operand<E>)
    | Toggling(other: Operand<E>)
    | MergingItself
    | SubtractingItself
    | TogglingItself
  {
    predicate HasOperand() {
      Merging? || Subtracting? || Toggling?
    }

    ghost function Objects(): set<object> {
      if HasOperand() && other.OfCompatSet? then {other.inner} else {}
    }

    ghost function Frame(): set<object>
      reads Objects()
    {
      if HasOperand() then other.Frame() else {}
    }

    /** The operand is a valid set that shares nothing with the set operated on. */
    ghost predicate Fits(c: Inner<E>)
      reads c, Objects(), Frame()
    {
      HasOperand() ==>
        && other.Valid(c.hash)
        && (other.OfCompatSet? ==> other.inner != c && other.inner.table != c.table)
    }

    /** The set that the operation joins, takes away or toggles. */
    ghost function Argument(): set<E>
      reads Objects(), Frame()
    {
      match this
      case Merging(o) => o.Elements()
      case Subtracting(o) => o.Elements()
      case Toggling(o) => o.Toggled()
      case _ => {}
    }

    /** What the operation does to the represented set. */
    ghost predicate Effect(arg: set<E>, s: set<E>, s': set<E>) {
      match this
      case Adding(x) => s' == s + {x}
      case Discarding(x) => s' == s - {x}
      case Popping => if s == {} then s' == {} else exists x :: x in s && s' == s - {x}
      case Merging(_) => s' == s + arg
      case Subtracting(_) => s' == s - arg
      case Toggling(_) => s' == Xor(s, arg)
      case MergingItself => s' == s
      case SubtractingItself => s' == {}
      case TogglingItself => s' == {}
    }
  }

  method ApplyToItself<E(==,!new)>(c: CompatSet<E>, op: Op<E>)
    requires c.Valid() && (op.MergingItself? || op.SubtractingItself? || op.TogglingItself?)
    modifies c, c.inner, c.inner.table
    ensures c.Valid() && c.inner.hash == old(c.inner.hash)
    ensures op.Effect({}, old(c.Contents()), c.Contents())
    ensures c.inner == old(c.inner) || fresh(c.inner)
    ensures c.inner.table == old(c.inner.table) || fresh(c.inner.table)
  {
    if op.MergingItself? {
      c.inner.Update(OfCompatSet(c.inner));
    } else if op.SubtractingItself? {
      var i := c.inner.DifferenceUpdate(OfCompatSet(c.inner));
      c.inner := i;
    } else {
      var i := c.inner.SymmetricDifferenceUpdate(OfCompatSet(c.inner));
      c.inner := i;
    }
  }

  method Apply<E(==,!new)>(c: CompatSet<E>, op: Op<E>)
    requires c.Valid() && op.Fits(c.inner)
    modifies c, c.inner, c.inner.table
    ensures c.Valid() && c.inner.hash == old(c.inner.hash)
    ensures op.Effect(old(op.Argument()), old(c.Contents()), c.Contents())
    ensures c.inner == old(c.inner) || fresh(c.inner)
    ensures c.inner.table == old(c.inner.table) || fresh(c.inner.table)
  {
    match op
    case Adding(x) => c.inner.Add(x);
    case Discarding(x) => var _ := c.inner.Discard(x);
    case Popping => var _ := c.inner.Pop();
    case Merging(o) => c.inner.Update(o);
    case Subtracting(o) => var i := c.inner.DifferenceUpdate(o); c.inner := i;
    case Toggling(o) => var i := c.inner.SymmetricDifferenceUpdate(o); c.inner := i;
    case _ => ApplyToItself(c, op);
  }

  /** Every run of operations follows the run on mathematical sets, and after every one of
      them the table is less than two thirds full, with exact counters. */
  method Run<E(==,!new)>(c: CompatSet<E>, ops: seq<Op<E>>) returns (ghost trace: seq<set<E>>)
    requires c.Valid()
    requires forall k :: 0 <= k < |ops| ==> ops[k].Fits(c.inner)
    modifies c, c.inner, c.inner.table
    ensures c.Valid()
    ensures |trace| == |ops| + 1 && trace[0] == old(c.Contents()) && trace[|ops|] == c.Contents()
    ensures forall k :: 0 <= k < |ops| ==> ops[k].Effect(old(ops[k].Argument()), trace[k], trace[k + 1])
  {
    trace := [c.Contents()];
    for k := 0 to |ops|
      invariant c.Valid() && c.inner.hash == old(c.inner.hash)
      invariant c.inner == old(c.inner) || fresh(c.inner)
      invariant c.inner.table == old(c.inner.table) || fresh(c.inner.table)
      invariant |trace| == k + 1 && trace[0] == old(c.Contents()) && trace[k] == c.Contents()
      invariant forall i :: 0 <= i < k ==> ops[i].Effect(old(ops[i].Argument()), trace[i], trace[i + 1])
    {
      assert old(ops[k].Fits(c.inner));
      Apply(c, ops[k]);
      trace := trace + [c.Contents()];
    }
  }
}
