/**
 Validation of an upgrade schedule: the check sorts the times and compares neighbours; what it
 decides is that any two nodes upgrade far enough apart.
 */
module UpgradeSchedule {
  import opened Basics

  ghost predicate Apart(x: int, y: int, gap: int) {
    x - y >= gap || y - x >= gap
  }

  ghost predicate ApartFromAll(x: int, s: seq<int>, gap: int) {
    forall i :: 0 <= i < |s| ==> Apart(x, s[i], gap)
  }

  /** Any two positions hold times at least `gap` apart. */
  ghost predicate Spread(s: seq<int>, gap: int) {
    s == [] || (ApartFromAll(s[0], s[1..], gap) && Spread(s[1..], gap))
  }

  // ---------- sorting ----------

  function Insert(x: int, s: seq<int>): seq<int> {
    if s == [] || x <= s[0] then [x] + s else [s[0]] + Insert(x, s[1..])
  }

  /** `sorted(times)`. */
  function Sort(s: seq<int>): (r: seq<int>)
    ensures |r| == |s|
  {
    if s == [] then [] else InsertLength(s[0], Sort(s[1..])); Insert(s[0], Sort(s[1..]))
  }

  lemma InsertLength(x: int, s: seq<int>)
    ensures |Insert(x, s)| == |s| + 1
  {
  }

  ghost predicate Sorted(s: seq<int>) {
    forall i, j :: 0 <= i < j < |s| ==> s[i] <= s[j]
  }

  lemma {:induction false} InsertSorts(x: int, s: seq<int>)
    requires Sorted(s)
    ensures Sorted(Insert(x, s))
    ensures forall y :: y in Insert(x, s) <==> y == x || y in s
  {
    if s == [] || x <= s[0] {
    } else {
      InsertSorts(x, s[1..]);
      var r := Insert(x, s[1..]);
      assert s == [s[0]] + s[1..];
      assert forall i :: 0 <= i < |r| ==> r[i] in r;
    }
  }

  lemma {:induction false} SortSorts(s: seq<int>)
    ensures Sorted(Sort(s))
  {
    if s == [] {
    } else {
      SortSorts(s[1..]);
      InsertSorts(s[0], Sort(s[1..]));
    }
  }

  lemma {:induction false} InsertKeepsApart(z: int, x: int, s: seq<int>, gap: int)
    ensures ApartFromAll(z, Insert(x, s), gap) <==> Apart(z, x, gap) && ApartFromAll(z, s, gap)
  {
    var r := Insert(x, s);
    if s != [] && x > s[0] {
      InsertKeepsApart(z, x, s[1..], gap);
      HeadAndTail(z, r, gap);
      HeadAndTail(z, s, gap);
      assert r[1..] == Insert(x, s[1..]);
    } else {
      HeadAndTail(z, r, gap);
      assert r[1..] == s;
    }
  }

  lemma HeadAndTail(z: int, s: seq<int>, gap: int)
    requires s != []
    ensures ApartFromAll(z, s, gap) <==> Apart(z, s[0], gap) && ApartFromAll(z, s[1..], gap)
  {
  }

  lemma {:induction false} InsertKeepsSpread(x: int, s: seq<int>, gap: int)
    ensures Spread(Insert(x, s), gap) <==> ApartFromAll(x, s, gap) && Spread(s, gap)
  {
    var r := Insert(x, s);
    if s != [] && x > s[0] {
      InsertKeepsSpread(x, s[1..], gap);
      InsertKeepsApart(s[0], x, s[1..], gap);
      HeadAndTail(x, s, gap);
      assert r[1..] == Insert(x, s[1..]);
    } else {
      assert r[1..] == s;
    }
  }

  lemma ApartWithin(x: int, a: seq<int>, b: seq<int>, gap: int)
    requires forall y :: y in a <==> y in b
    ensures ApartFromAll(x, a, gap) <==> ApartFromAll(x, b, gap)
  {
    assert (forall y :: y in a ==> Apart(x, y, gap)) <==> ApartFromAll(x, a, gap);
    assert (forall y :: y in b ==> Apart(x, y, gap)) <==> ApartFromAll(x, b, gap);
  }

  lemma {:induction false} SortMembers(s: seq<int>)
    ensures forall y :: y in Sort(s) <==> y in s
  {
    if s == [] {
    } else {
      SortMembers(s[1..]);
      SortSorts(s[1..]);
      InsertSorts(s[0], Sort(s[1..]));
      assert s == [s[0]] + s[1..];
    }
  }

  lemma {:induction false} SortKeepsSpread(s: seq<int>, gap: int)
    ensures Spread(Sort(s), gap) <==> Spread(s, gap)
  {
    if s == [] {
    } else {
      SortKeepsSpread(s[1..], gap);
      InsertKeepsSpread(s[0], Sort(s[1..]), gap);
      SortMembers(s[1..]);
      ApartWithin(s[0], Sort(s[1..]), s[1..], gap);
    }
  }

  /** In a sorted list it is enough to look at neighbours. */
  lemma {:induction false} NeighboursDecide(s: seq<int>, gap: int)
    requires Sorted(s)
    ensures Spread(s, gap) <==> forall i :: 0 <= i < |s| - 1 ==> s[i + 1] - s[i] >= gap
  {
    if |s| <= 1 {
    } else {
      var t := s[1..];
      assert forall i :: 0 <= i < |t| ==> t[i] == s[i + 1];
      NeighboursDecide(t, gap);
      if s[1] - s[0] >= gap {
        assert ApartFromAll(s[0], t, gap);
      } else {
        assert !Apart(s[0], t[0], gap) || gap <= 0;
      }
      forall i | 0 <= i < |t| - 1
        ensures t[i + 1] - t[i] == s[i + 2] - s[i + 1]
      {
      }
      assert (forall i :: 0 <= i < |s| - 1 ==> s[i + 1] - s[i] >= gap) <==>
             s[1] - s[0] >= gap && (forall i :: 0 <= i < |t| - 1 ==> t[i + 1] - t[i] >= gap) by {
        if s[1] - s[0] >= gap && (forall i :: 0 <= i < |t| - 1 ==> t[i + 1] - t[i] >= gap) {
          forall i | 0 <= i < |s| - 1
            ensures s[i + 1] - s[i] >= gap
          {
            if i > 0 {
              assert t[i] - t[i - 1] >= gap;
            }
          }
        }
        if forall i :: 0 <= i < |s| - 1 ==> s[i + 1] - s[i] >= gap {
          forall i | 0 <= i < |t| - 1
            ensures t[i + 1] - t[i] >= gap
          {
            assert s[i + 2] - s[i + 1] >= gap;
          }
        }
      }
    }
  }

  lemma {:induction false} SpreadByPositions(s: seq<int>, gap: int)
    ensures Spread(s, gap) <==> forall i, j :: 0 <= i < j < |s| ==> Apart(s[i], s[j], gap)
  {
    if s == [] {
    } else {
      var t := s[1..];
      SpreadByPositions(t, gap);
      assert forall i :: 0 <= i < |t| ==> t[i] == s[i + 1];
      if Spread(s, gap) {
        forall i, j | 0 <= i < j < |s|
          ensures Apart(s[i], s[j], gap)
        {
          assert s[j] == t[j - 1];
          assert i > 0 ==> s[i] == t[i - 1];
        }
      }
    }
  }

  // ---------- the check ----------

  /** Any two nodes are scheduled at least `gap` apart. */
  ghost predicate FarApart(schedule: map<string, Option<int>>, gap: int)
    requires forall n :: n in schedule ==> schedule[n].Some?
  {
    forall a, b :: a in schedule && b in schedule && a != b ==> Apart(schedule[a].value, schedule[b].value, gap)
  }

  /** A date that does not parse is `None`; `services` tells which nodes are not demoted.  A
      forced upgrade is checked for its date formats only. */
  ghost predicate ScheduleOk(schedule: map<string, Option<int>>, services: map<string, bool>, force: bool, now: int, gap: int) {
    && (forall n :: n in schedule ==> schedule[n].Some?)
    && (!force ==>
          && schedule.Keys == (set n | n in services && services[n])
          && (forall n :: n in schedule ==> schedule[n].value > now)
          && FarApart(schedule, gap))
  }

  /** The times collected so far are those of the nodes visited so far. */
  ghost predicate Collected(schedule: map<string, Option<int>>, nodes: seq<string>, times: seq<int>) {
    && |nodes| == |times| && Distinct(nodes)
    && forall i :: 0 <= i < |nodes| ==> nodes[i] in schedule && schedule[nodes[i]] == Some(times[i])
  }

  lemma SpreadIsFarApart(schedule: map<string, Option<int>>, nodes: seq<string>, times: seq<int>, gap: int)
    requires Collected(schedule, nodes, times)
    requires forall n :: n in schedule ==> schedule[n].Some? && n in nodes
    ensures Spread(times, gap) <==> FarApart(schedule, gap)
  {
    SpreadByPositions(times, gap);
    if Spread(times, gap) {
      forall a, b | a in schedule && b in schedule && a != b
        ensures Apart(schedule[a].value, schedule[b].value, gap)
      {
        var i :| 0 <= i < |nodes| && nodes[i] == a;
        var j :| 0 <= j < |nodes| && nodes[j] == b;
        assert i < j ==> Apart(times[i], times[j], gap);
        assert j < i ==> Apart(times[j], times[i], gap);
      }
    }
    if FarApart(schedule, gap) {
      forall i, j | 0 <= i < j < |times|
        ensures Apart(times[i], times[j], gap)
      {
        assert nodes[i] != nodes[j];
      }
    }
  }

  /** Parses every date; none if one does not parse or, without force, is not in the future. */
  method CollectTimes(schedule: map<string, Option<int>>, force: bool, now: int)
    returns (times: Option<seq<int>>, ghost nodes: seq<string>)
    ensures times.Some? <==>
              forall n :: n in schedule ==> schedule[n].Some? && (!force ==> schedule[n].value > now)
    ensures times.Some? ==> Collected(schedule, nodes, times.value) && forall n :: n in schedule ==> n in nodes
  {
    var list: seq<int> := [];
    nodes := [];
    var rest := schedule.Keys;
    while rest != {}
      invariant rest <= schedule.Keys && Collected(schedule, nodes, list)
      invariant forall n :: n in schedule <==> n in rest || n in nodes
      invariant forall n :: n in nodes ==> n !in rest
      invariant !force ==> forall n :: n in nodes ==> schedule[n].value > now
      decreases rest
    {
      var node := Pick(rest);
      rest := rest - {node};
      if schedule[node].None? {
        return None, nodes;
      }
      var when := schedule[node].value;
      if when <= now && !force {
        return None, nodes;
      }
      list := list + [when];
      nodes := nodes + [node];
    }
    times := Some(list);
  }

  /** The comparison of neighbouring times. */
  method NeighboursFarApart(times: seq<int>, gap: int) returns (b: bool)
    requires Sorted(times)
    ensures b <==> Spread(times, gap)
  {
    NeighboursDecide(times, gap);
    for i := 0 to (if times == [] then 0 else |times| - 1)
      invariant forall k :: 0 <= k < i ==> times[k + 1] - times[k] >= gap
    {
      if times[i + 1] - times[i] < gap {
        return false;
      }
    }
    return true;
  }

  method IsScheduleValid(schedule: map<string, Option<int>>, services: map<string, bool>, force: bool, now: int, gap: int)
    returns (valid: bool)
    ensures valid <==> ScheduleOk(schedule, services, force, now, gap)
  {
    var nonDemoted := set n | n in services && services[n];
    if !force && schedule.Keys != nonDemoted {
      return false;
    }
    var times;
    ghost var nodes;
    times, nodes := CollectTimes(schedule, force, now);
    if times.None? {
      return false;
    }
    if force {
      return true;
    }
    SpreadIsFarApart(schedule, nodes, times.value, gap);
    SortKeepsSpread(times.value, gap);
    SortSorts(times.value);
    valid := NeighboursFarApart(Sort(times.value), gap);
  }
}
