/**
 The version of the pool over time: a new version is recorded once more than `f` nodes have
 reported a completed upgrade to it.
 */
module PoolVersion {
  import opened Basics

  /** What the controller reacts to: the start of a pool upgrade, with the number of scheduled
      nodes, and a node's report of a completed upgrade. */
  datatype Txn = UpgradeStart(nodes: nat) | Complete(sender: string, version: string, time: int) | Other

  datatype State = State(f: int, votes: map<string, set<string>>, versions: map<int, string>)

  const INITIAL := State(0, map[], map[])

  /** Version strings compare as strings. */
  predicate Greater(a: string, b: string) {
    a != [] && (b == [] || a[0] > b[0] || (a[0] == b[0] && Greater(a[1..], b[1..])))
  }

  function VotesWith(s: State, sender: string, version: string): set<string> {
    (if version in s.votes then s.votes[version] else {}) + {sender}
  }

  /** The votes that survive the recording of a version. */
  function Later(votes: map<string, set<string>>, version: string): map<string, set<string>> {
    map v | v in votes && Greater(v, version) :: votes[v]
  }

  function After(s: State, txn: Txn): State {
    match txn
    case UpgradeStart(n) => s.(f := (n - 1) / 3)
    case Complete(sender, version, time) =>
      var votes := s.votes[version := VotesWith(s, sender, version)];
      if |votes[version]| > s.f then
        s.(versions := s.versions[time := version], votes := Later(votes, version))
      else
        s.(votes := votes)
    case Other => s
  }

  /** `r` is the version recorded at the greatest time not after `ts`. */
  ghost predicate InForce(versions: map<int, string>, ts: int, r: Option<string>) {
    match r
    case None => forall t :: t in versions ==> t > ts
    case Some(v) => exists t :: t in versions && t <= ts && versions[t] == v
                                && forall t' :: t' in versions && t' <= ts ==> t' <= t
  }

  class TxnVersionController {
    var f: int
    var votes: map<string, set<string>>
    var versions: map<int, string>

    ghost function Now(): State
      reads this
    {
      State(f, votes, versions)
    }

    constructor ()
      ensures Now() == INITIAL
    {
      f := 0;
      votes := map[];
      versions := map[];
    }

    method UpdateVersion(txn: Txn)
      modifies this
      ensures Now() == After(old(Now()), txn)
    {
      match txn {
        case UpgradeStart(n) =>
          f := (n - 1) / 3;
        case Complete(sender, version, time) =>
          if version !in votes {
            votes := votes[version := {}];
          }
          votes := votes[version := votes[version] + {sender}];
          assert votes == old(votes)[version := VotesWith(old(Now()), sender, version)];
          if |votes[version]| > f {
            versions := versions[time := version];
            votes := Later(votes, version);
          }
        case Other =>
      }
    }

    /** Without a timestamp, the version recorded at the latest time. */
    method GetPoolVersion(timestamp: Option<int>) returns (r: Option<string>)
      ensures timestamp.Some? ==> InForce(versions, timestamp.value, r)
      ensures timestamp.None? ==> forall ts :: (forall t :: t in versions ==> t <= ts) ==> InForce(versions, ts, r)
    {
      var times := SortedList(versions.Keys);
      if timestamp.None? {
        r := if times == [] then None else Some(versions[times[|times| - 1]]);
        forall ts | forall t :: t in versions ==> t <= ts
          ensures InForce(versions, ts, r)
        {
          RecordedUpTo(versions, times, ts, |times|);
        }
        return;
      }
      r := None;
      for k := 0 to |times|
        invariant forall i :: 0 <= i < k ==> times[i] <= timestamp.value
        invariant r == Recorded(versions, times, k)
      {
        if timestamp.value < times[k] {
          RecordedUpTo(versions, times, timestamp.value, k);
          return;
        }
        r := Some(versions[times[k]]);
      }
      RecordedUpTo(versions, times, timestamp.value, |times|);
    }
  }

  /** The version recorded at the last of the first `k` times. */
  ghost function Recorded(versions: map<int, string>, times: seq<int>, k: nat): Option<string>
    requires k <= |times| && SetOf(times) == versions.Keys
  {
    if k == 0 then None else
      assert times[k - 1] in SetOf(times);
      Some(versions[times[k - 1]])
  }

  lemma RecordedUpTo(versions: map<int, string>, times: seq<int>, ts: int, k: nat)
    requires Ascending(times) && SetOf(times) == versions.Keys && k <= |times|
    requires forall i :: 0 <= i < k ==> times[i] <= ts
    requires k < |times| ==> ts < times[k]
    ensures InForce(versions, ts, Recorded(versions, times, k))
  {
    forall t | t in versions && t <= ts
      ensures k > 0 && t <= times[k - 1]
    {
      assert t in SetOf(times);
      var i :| 0 <= i < |times| && times[i] == t;
      assert i < k;
    }
    if k > 0 {
      assert times[k - 1] in SetOf(times);
    }
  }

  // ---------- every run ----------

  ghost function Run(txns: seq<Txn>): State {
    if txns == [] then INITIAL else After(Run(txns[..|txns| - 1]), txns[|txns| - 1])
  }

  /** All senders that reported completion of this version. */
  ghost function Voters(txns: seq<Txn>, version: string): set<string> {
    set k | 0 <= k < |txns| && txns[k].Complete? && txns[k].version == version :: txns[k].sender
  }

  /** The number of faulty nodes tolerated by the upgrade started last. */
  ghost function Tolerated(txns: seq<Txn>): int {
    if txns == [] then 0
    else if txns[|txns| - 1].UpgradeStart? then (txns[|txns| - 1].nodes - 1) / 3
    else Tolerated(txns[..|txns| - 1])
  }

  lemma VotersGrow(txns: seq<Txn>, version: string)
    requires txns != []
    ensures var last := txns[|txns| - 1];
            Voters(txns, version) ==
            Voters(txns[..|txns| - 1], version) + (if last.Complete? && last.version == version then {last.sender} else {})
  {
  }

  /** Counted votes were cast, and the threshold is that of the last upgrade. */
  lemma {:induction false} VotesWereCast(txns: seq<Txn>)
    ensures Run(txns).f == Tolerated(txns)
    ensures forall v :: v in Run(txns).votes ==> Run(txns).votes[v] <= Voters(txns, v)
  {
    if txns == [] {
    } else {
      VotesWereCast(txns[..|txns| - 1]);
      forall v | v in Run(txns).votes
        ensures Run(txns).votes[v] <= Voters(txns, v)
      {
        VotersGrow(txns, v);
      }
    }
  }

  lemma SubsetSize<T>(a: set<T>, b: set<T>)
    requires a <= b
    ensures |a| <= |b|
  {
    assert b == a + (b - a);
  }

  /** Transaction `k` completed a version that more than `f` distinct nodes had reported. */
  ghost predicate BackedAt(txns: seq<Txn>, k: nat, time: int, version: string) {
    && k < |txns| && txns[k].Complete? && txns[k].version == version && txns[k].time == time
    && |Voters(txns[..k + 1], version)| > Tolerated(txns[..k])
  }

  /** Every recorded version is backed by more than `f` distinct reports for it. */
  lemma {:induction false} RecordedVersionsAreBacked(txns: seq<Txn>, time: int) returns (k: nat)
    requires time in Run(txns).versions
    ensures BackedAt(txns, k, time, Run(txns).versions[time])
  {
    var n := |txns| - 1;
    var front, last := txns[..n], txns[n];
    var s, s' := Run(front), Run(txns);
    if time in s.versions && s.versions[time] == s'.versions[time] {
      k := RecordedVersionsAreBacked(front, time);
      assert front[..k + 1] == txns[..k + 1] && front[..k] == txns[..k];
    } else {
      k := n;
      VotesWereCast(front);
      VotersGrow(txns, last.version);
      SubsetSize(VotesWith(s, last.sender, last.version), Voters(txns, last.version));
      assert txns[..k + 1] == txns;
    }
  }

  /** So as long as at most `f` nodes are faulty, a correct one completed the upgrade. */
  lemma SomeCorrectNodeCompleted(txns: seq<Txn>, time: int, k: nat, faulty: set<string>) returns (node: string)
    requires time in Run(txns).versions && BackedAt(txns, k, time, Run(txns).versions[time])
    requires |faulty| <= Tolerated(txns[..k])
    ensures node !in faulty && node in Voters(txns, Run(txns).versions[time])
  {
    var voters := Voters(txns[..k + 1], Run(txns).versions[time]);
    if voters <= faulty {
      SubsetSize(voters, faulty);
    }
    node :| node in voters && node !in faulty;
    var i :| 0 <= i < k + 1 && txns[..k + 1][i].Complete? && txns[..k + 1][i].version == Run(txns).versions[time]
             && txns[..k + 1][i].sender == node;
    assert txns[i] == txns[..k + 1][i];
  }

  // ---------- exactly which votes count, and what is recorded ----------

  /** The strings agree before position `k`, and there `a` goes on with more. */
  ghost predicate RisesAt(a: string, b: string, k: nat) {
    && k < |a| && k <= |b|
    && (forall i :: 0 <= i < k ==> a[i] == b[i])
    && (k == |b| || a[k] > b[k])
  }

  /** The order of version strings: the first difference decides, and a proper prefix is below. */
  ghost predicate Above(a: string, b: string) {
    exists k: nat :: RisesAt(a, b, k)
  }

  lemma {:induction false} GreaterIsAbove(a: string, b: string)
    ensures Greater(a, b) <==> Above(a, b)
  {
    if a == [] || b == [] || a[0] != b[0] {
      assert RisesAt(a, b, 0) <==> Greater(a, b);
    } else {
      GreaterIsAbove(a[1..], b[1..]);
      AboveStep(a, b);
    }
  }

  lemma RisesLater(a: string, b: string, k: nat)
    requires a != [] && b != [] && a[0] == b[0]
    ensures RisesAt(a, b, k + 1) <==> RisesAt(a[1..], b[1..], k)
  {
    assert forall i :: 0 < i < |a| ==> a[i] == a[1..][i - 1];
    assert forall i :: 0 < i < |b| ==> b[i] == b[1..][i - 1];
  }

  lemma AboveStep(a: string, b: string)
    requires a != [] && b != [] && a[0] == b[0]
    ensures Above(a, b) <==> Above(a[1..], b[1..])
  {
    if Above(a, b) {
      var k: nat :| RisesAt(a, b, k);
      RisesLater(a, b, k - 1);
    } else if Above(a[1..], b[1..]) {
      var k: nat :| RisesAt(a[1..], b[1..], k);
      RisesLater(a, b, k);
    }
  }

  /** The nodes that reported `version` among the first `n` transactions and since the last
      recording of a version that it is not above. */
  ghost function Reporters(txns: seq<Txn>, n: nat, version: string): set<string>
    requires n <= |txns|
    decreases n, 1
  {
    set k | 0 <= k < n && Counts(txns, k, n, version) :: txns[k].sender
  }

  ghost predicate Counts(txns: seq<Txn>, k: nat, n: nat, version: string)
    requires k < n <= |txns|
    decreases n, 0
  {
    && txns[k].Complete? && txns[k].version == version
    && forall j :: k <= j < n && Recording(txns, j) ==> Above(version, txns[j].version)
  }

  /** Transaction `j` is a report that makes more than `f` of them. */
  ghost predicate Recording(txns: seq<Txn>, j: nat)
    requires j < |txns|
    decreases j, 2
  {
    txns[j].Complete? && |Reporters(txns, j, txns[j].version) + {txns[j].sender}| > Tolerated(txns[..j])
  }

  /** Recording transaction `n` discards the reports of this version. */
  ghost predicate Clears(txns: seq<Txn>, n: nat, version: string)
    requires n < |txns|
  {
    Recording(txns, n) && !Above(version, txns[n].version)
  }

  lemma CountsStep(txns: seq<Txn>, k: nat, n: nat, version: string)
    requires k < n < |txns|
    ensures Counts(txns, k, n + 1, version) <==> !Clears(txns, n, version) && Counts(txns, k, n, version)
  {
  }

  lemma CountsLast(txns: seq<Txn>, n: nat, version: string)
    requires n < |txns|
    ensures Counts(txns, n, n + 1, version) <==>
              txns[n].Complete? && txns[n].version == version && !Clears(txns, n, version)
  {
  }

  lemma ReportersGrow(txns: seq<Txn>, n: nat, version: string)
    requires n < |txns|
    ensures Reporters(txns, n + 1, version) ==
              if Clears(txns, n, version) then {}
              else Reporters(txns, n, version)
                   + (if txns[n].Complete? && txns[n].version == version then {txns[n].sender} else {})
  {
    forall k | 0 <= k < n
      ensures Counts(txns, k, n + 1, version) <==> !Clears(txns, n, version) && Counts(txns, k, n, version)
    {
      CountsStep(txns, k, n, version);
    }
    CountsLast(txns, n, version);
  }

  ghost function VotesFor(s: State, version: string): set<string> {
    if version in s.votes then s.votes[version] else {}
  }

  /** The votes kept are exactly the reports that count. */
  ghost predicate VotesAre(s: State, txns: seq<Txn>, n: nat)
    requires n <= |txns|
  {
    forall v :: VotesFor(s, v) == Reporters(txns, n, v)
  }

  /** What was recorded last at each time. */
  ghost predicate RecordsAre(s: State, txns: seq<Txn>, n: nat)
    requires n <= |txns|
  {
    forall time :: (if time in s.versions then Some(s.versions[time]) else None) == LastRecording(txns, n, time)
  }

  ghost function LastRecording(txns: seq<Txn>, n: nat, time: int): Option<string>
    requires n <= |txns|
  {
    if n == 0 then None
    else if Recording(txns, n - 1) && txns[n - 1].time == time then Some(txns[n - 1].version)
    else LastRecording(txns, n - 1, time)
  }

  lemma RunUpTo(txns: seq<Txn>, n: nat)
    requires n < |txns|
    ensures Run(txns[..n + 1]) == After(Run(txns[..n]), txns[n])
  {
    assert txns[..n + 1][..n] == txns[..n];
  }

  lemma RecordsIff(txns: seq<Txn>, n: nat, s: State)
    requires n < |txns| && txns[n].Complete?
    requires VotesAre(s, txns, n) && s.f == Tolerated(txns[..n])
    ensures Recording(txns, n) <==> |VotesWith(s, txns[n].sender, txns[n].version)| > s.f
  {
    assert VotesFor(s, txns[n].version) == Reporters(txns, n, txns[n].version);
  }

  /** Over every run: votes are kept exactly from the last recording of a version not below on,
      and a version is recorded exactly when more than `f` nodes have reported it since. */
  lemma {:induction false} RecordedExactly(txns: seq<Txn>, n: nat)
    requires n <= |txns|
    ensures VotesAre(Run(txns[..n]), txns, n) && RecordsAre(Run(txns[..n]), txns, n)
  {
    if n == 0 {
    } else {
      var s := Run(txns[..n - 1]);
      RecordedExactly(txns, n - 1);
      RunUpTo(txns, n - 1);
      VotesWereCast(txns[..n - 1]);
      forall v
        ensures VotesFor(Run(txns[..n]), v) == Reporters(txns, n, v)
      {
        VotesStep(txns, n - 1, s, v);
      }
      RecordsStep(txns, n - 1, s);
    }
  }

  /** The effect of a report on the votes of any version. */
  lemma VotesAfter(s: State, sender: string, version: string, time: int, v: string)
    ensures VotesFor(After(s, Complete(sender, version, time)), v) ==
              if |VotesWith(s, sender, version)| > s.f && !Greater(v, version) then {}
              else VotesFor(s, v) + (if v == version then {sender} else {})
  {
  }

  lemma VotesStep(txns: seq<Txn>, n: nat, s: State, v: string)
    requires n < |txns| && VotesAre(s, txns, n) && s.f == Tolerated(txns[..n])
    ensures VotesFor(After(s, txns[n]), v) == Reporters(txns, n + 1, v)
  {
    ReportersGrow(txns, n, v);
    assert VotesFor(s, v) == Reporters(txns, n, v);
    if txns[n].Complete? {
      RecordsIff(txns, n, s);
      GreaterIsAbove(v, txns[n].version);
      VotesAfter(s, txns[n].sender, txns[n].version, txns[n].time, v);
    }
  }

  lemma RecordsStep(txns: seq<Txn>, n: nat, s: State)
    requires n < |txns| && VotesAre(s, txns, n) && RecordsAre(s, txns, n) && s.f == Tolerated(txns[..n])
    ensures RecordsAre(After(s, txns[n]), txns, n + 1)
  {
    if txns[n].Complete? {
      RecordsIff(txns, n, s);
    }
    forall time
      ensures (if time in After(s, txns[n]).versions then Some(After(s, txns[n]).versions[time]) else None)
              == LastRecording(txns, n + 1, time)
    {
      assert (if time in s.versions then Some(s.versions[time]) else None) == LastRecording(txns, n, time);
    }
  }

  /** In particular enough reports are enough. */
  lemma EnoughReportsAreRecorded(txns: seq<Txn>, k: nat)
    requires k < |txns| && txns[k].Complete?
    requires |Reporters(txns, k, txns[k].version) + {txns[k].sender}| > Tolerated(txns[..k])
    ensures txns[k].time in Run(txns[..k + 1]).versions
    ensures Run(txns[..k + 1]).versions[txns[k].time] == txns[k].version
  {
    RecordedExactly(txns, k + 1);
    var s := Run(txns[..k + 1]);
    assert LastRecording(txns, k + 1, txns[k].time) == Some(txns[k].version);
  }

  // ---------- the past does not change ----------

  lemma InForceIsUnique(versions: map<int, string>, ts: int, r: Option<string>, r': Option<string>)
    requires InForce(versions, ts, r) && InForce(versions, ts, r')
    ensures r == r'
  {
  }

  /** Transactions after `ts` leave the version in force at `ts` as it was. */
  lemma {:induction false} PastIsImmutable(txns: seq<Txn>, more: seq<Txn>, ts: int, r: Option<string>)
    requires forall k :: 0 <= k < |more| && more[k].Complete? ==> more[k].time > ts
    ensures InForce(Run(txns).versions, ts, r) <==> InForce(Run(txns + more).versions, ts, r)
    decreases |more|
  {
    if more == [] {
      assert txns + more == txns;
    } else {
      var n := |more| - 1;
      var front, last := more[..n], more[n];
      PastIsImmutable(txns, front, ts, r);
      assert (txns + more)[..|txns + more| - 1] == txns + front;
      var a, b := Run(txns + front).versions, Run(txns + more).versions;
      assert forall t :: t <= ts ==> (t in a <==> t in b) && (t in a ==> a[t] == b[t]);
      SameUpTo(a, b, ts, r);
    }
  }

  lemma SameUpTo(a: map<int, string>, b: map<int, string>, ts: int, r: Option<string>)
    requires forall t :: t <= ts ==> (t in a <==> t in b) && (t in a ==> a[t] == b[t])
    ensures InForce(a, ts, r) <==> InForce(b, ts, r)
  {
  }
}
