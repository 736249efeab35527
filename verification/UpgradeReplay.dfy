/**
 Replaying the config ledger against having handled it live: when a node that catches up or
 restarts ends up with the same scheduled upgrade.
 */
module UpgradeReplay {
  import opened AuthActions
  import opened Basics
  import opened UpgradeAdmission
  import opened UpgradeModel

  /** Handling every transaction of the ledger as it is committed. */
  ghost function Live(cfg: Config, ledger: seq<Txn>): State {
    if ledger == [] then INITIAL
    else HandleTxn(cfg, Live(cfg, ledger[..|ledger| - 1]), ledger[|ledger| - 1])
  }

  /** A CANCEL after position `i` whose version parses to the same one. */
  ghost predicate CancelledByVersion(cfg: Config, ledger: seq<Txn>, i: nat)
    requires i < |ledger| && ledger[i].PoolUpgrade?
  {
    exists j :: i < j < |ledger| && IsCancel(ledger[j])
                && Parsed(cfg, ledger[j]).Some? && Parsed(cfg, ledger[j]) == Parsed(cfg, ledger[i])
  }

  ghost function LastEffective(cfg: Config, ledger: seq<Txn>): Option<nat> {
    LastIndex(ledger, t => Effective(cfg, t))
  }

  // ---------- live handling in closed form ----------

  /** No upgrade ever starts while transactions are only handled. */
  lemma {:induction false} LiveConcludesNothing(cfg: Config, ledger: seq<Txn>)
    ensures LastEvent(Live(cfg, ledger)).Some? ==>
              var k := LastEvent(Live(cfg, ledger)).value.kind; k.Scheduled? || k.Cancelled?
  {
    if ledger == [] {
    } else {
      LiveConcludesNothing(cfg, ledger[..|ledger| - 1]);
    }
  }

  lemma PrefixLastEffective(cfg: Config, ledger: seq<Txn>, i: nat)
    requires LastEffective(cfg, ledger) == Some(i) && i < |ledger| - 1
    ensures LastEffective(cfg, ledger[..|ledger| - 1]) == Some(i)
  {
  }

  /** After a whole ledger, what is scheduled is the last START that names this node, unless a
      later CANCEL has the same parsed version. */
  lemma {:induction false} LiveInClosedForm(cfg: Config, ledger: seq<Txn>)
    ensures var i := LastEffective(cfg, ledger);
            Live(cfg, ledger).scheduled ==
              if i.None? || CancelledByVersion(cfg, ledger, i.value) then None
              else Some(EventData(cfg, ledger[i.value]))
  {
    if ledger == [] {
    } else {
      var n := |ledger| - 1;
      var front, t := ledger[..n], ledger[n];
      LiveInClosedForm(cfg, front);
      LiveConcludesNothing(cfg, front);
      var i := LastEffective(cfg, ledger);
      if i == Some(n) {
        assert !CancelledByVersion(cfg, ledger, n);
      } else if i.None? {
        assert forall j :: 0 <= j < n ==> front[j] == ledger[j];
      } else {
        PrefixLastEffective(cfg, ledger, i.value);
        CancelStep(cfg, ledger, i.value);
      }
    }
  }

  lemma CancelStep(cfg: Config, ledger: seq<Txn>, i: nat)
    requires i < |ledger| - 1 && ledger[i].PoolUpgrade?
    ensures var n := |ledger| - 1;
            CancelledByVersion(cfg, ledger, i) <==>
              || CancelledByVersion(cfg, ledger[..n], i)
              || (IsCancel(ledger[n]) && Parsed(cfg, ledger[n]).Some? && Parsed(cfg, ledger[n]) == Parsed(cfg, ledger[i]))
  {
  }

  // ---------- replay ----------

  /** A state in which no upgrade has been concluded and nothing is scheduled. */
  ghost predicate Idle(s: State) {
    s.scheduled.None? && (LastEvent(s).Some? ==> !Finalizing(LastEvent(s).value.kind))
  }

  lemma ReplayInClosedForm(cfg: Config, s: State, ledger: seq<Txn>)
    requires Idle(s)
    ensures ProcessLedger(cfg, s, ledger).scheduled == ReplaysTo(cfg, ledger)
  {
  }

  /** Replay and live handling schedule the same upgrade exactly when: the last START is meant
      for this node and is cancelled by name just when it is cancelled by parsed version; or it
      is not, and the last START that is has been cancelled. */
  ghost predicate ReplayFaithful(cfg: Config, ledger: seq<Txn>) {
    var i := LastIndex(ledger, IsStart);
    i.Some? ==>
      if Effective(cfg, ledger[i.value]) then
        CancelledByName(ledger, i.value) <==> CancelledByVersion(cfg, ledger, i.value)
      else
        var k := LastEffective(cfg, ledger);
        k.Some? ==> CancelledByVersion(cfg, ledger, k.value)
  }

  lemma ReplayEqualsLiveIff(cfg: Config, ledger: seq<Txn>)
    ensures ProcessLedger(cfg, INITIAL, ledger).scheduled == Live(cfg, ledger).scheduled
            <==> ReplayFaithful(cfg, ledger)
  {
    ReplayInClosedForm(cfg, INITIAL, ledger);
    LiveInClosedForm(cfg, ledger);
    var i, k := LastIndex(ledger, IsStart), LastEffective(cfg, ledger);
    if i.Some? && Effective(cfg, ledger[i.value]) {
      assert k == i;
    }
  }

  /** The usual case: every START names this node with a version that parses, and version
      strings are equal exactly when the parsed versions are. */
  lemma ReplayEqualsLive(cfg: Config, ledger: seq<Txn>)
    requires forall j :: 0 <= j < |ledger| && IsStart(ledger[j]) ==> Effective(cfg, ledger[j])
    requires forall i, j :: 0 <= i < j < |ledger| && IsStart(ledger[i]) && IsCancel(ledger[j]) ==>
               (ledger[i].version == ledger[j].version <==> Parsed(cfg, ledger[i]) == Parsed(cfg, ledger[j]))
    ensures ProcessLedger(cfg, INITIAL, ledger).scheduled == Live(cfg, ledger).scheduled
  {
    ReplayEqualsLiveIff(cfg, ledger);
    var i := LastIndex(ledger, IsStart);
    if i.Some? && CancelledByVersion(cfg, ledger, i.value) {
      var j :| i.value < j < |ledger| && IsCancel(ledger[j])
               && Parsed(cfg, ledger[j]).Some? && Parsed(cfg, ledger[j]) == Parsed(cfg, ledger[i.value]);
      assert ledger[j].version == ledger[i.value].version;
    }
  }

  lemma ReachableThree(keys: seq<ActionDef>, ledger: seq<Txn>, first: Txn, second: Txn, cancel: Txn)
    requires UpgradeRules(keys) && Reachable(keys, ledger)
    requires IsStart(first) && IsStart(second) && first.version != second.version
    requires IsCancel(cancel) && cancel.name == first.name && cancel.version == first.version
    requires Status(ledger, first.name, first.version) == "*" && Status(ledger, second.name, second.version) == "*"
    ensures Reachable(keys, ledger + [first] + [second] + [cancel])
  {
    ReachableExtends(keys, ledger, first);
    StatusAfter(ledger, first, second.name, second.version);
    ReachableExtends(keys, ledger + [first], second);
    StatusAfter(ledger, first, cancel.name, cancel.version);
    StatusAfter(ledger + [first], second, cancel.name, cancel.version);
    ReachableExtends(keys, ledger + [first] + [second], cancel);
  }

  lemma LiveAndReplayDiffer(cfg: Config, ledger: seq<Txn>)
    requires |ledger| == 3 && IsStart(ledger[0]) && Effective(cfg, ledger[1]) && IsCancel(ledger[2])
    requires Parsed(cfg, ledger[2]) == Parsed(cfg, ledger[1]) && ledger[2].version != ledger[1].version
    ensures Live(cfg, ledger).scheduled == None
    ensures ProcessLedger(cfg, INITIAL, ledger).scheduled == Some(EventData(cfg, ledger[1]))
  {
    LiveInClosedForm(cfg, ledger);
    assert LastEffective(cfg, ledger) == Some(1);
    assert IsCancel(ledger[2]) && CancelledByVersion(cfg, ledger, 1);
    ReplayInClosedForm(cfg, INITIAL, ledger);
    assert LastIndex(ledger, IsStart) == Some(1);
  }

  /** Where it fails, on a ledger that validation lets through: two upgrades spell one version
      differently, and a CANCEL of the earlier one comes last. Handled live it cancels the
      later upgrade too, which has the same parsed version; a replay overlooks it. */
  lemma OtherSpellingIsOverlooked(cfg: Config, keys: seq<ActionDef>, first: Txn, second: Txn, cancel: Txn,
                                  ledger: seq<Txn>)
    requires UpgradeRules(keys) && ledger == [first] + [second] + [cancel]
    requires IsStart(first) && Effective(cfg, second) && first.version != second.version
    requires IsCancel(cancel) && cancel.name == first.name && cancel.version == first.version
    requires Parsed(cfg, cancel) == Parsed(cfg, second)
    ensures Reachable(keys, ledger)
    ensures Live(cfg, ledger).scheduled == None
    ensures ProcessLedger(cfg, INITIAL, ledger).scheduled == Some(EventData(cfg, second))
  {
    ReachableThree(keys, [], first, second, cancel);
    assert [] + [first] == [first];
    LiveAndReplayDiffer(cfg, ledger);
  }

  // ---------- restarts ----------

  /** A crash before the upgrade is due loses nothing: after the restart and the replay the
      same upgrade is scheduled as a fresh replay of the ledger gives. */
  lemma CrashRecovery(cfg: Config, ledger: seq<Txn>, upgraded: bool)
    ensures ProcessLedger(cfg, Restart(Live(cfg, ledger), upgraded), ledger).scheduled
            == ProcessLedger(cfg, INITIAL, ledger).scheduled
  {
    LiveConcludesNothing(cfg, ledger);
    ReplayInClosedForm(cfg, Restart(Live(cfg, ledger), upgraded), ledger);
    ReplayInClosedForm(cfg, INITIAL, ledger);
  }

  /** No upgrade loop over restarts: once the upgrade of the last START has been started, the
      restart that concludes it and the replay after it do not schedule it again. (Without a
      restart a timeout does schedule it again, see `UpgradeRuns.TimedOutUpgradeIsRetried`.) */
  lemma NoUpgradeLoop(cfg: Config, s: State, i: nat, ledger: seq<Txn>, upgraded: bool)
    requires i < |s.timers| && s.timers[i].AgentTimer?
    requires var k := LastIndex(ledger, IsStart); k.Some? && ledger[k.value].upgradeId == s.timers[i].ev.upgradeId
    ensures var s' := CaughtUp(cfg, Restart(FireTimer(cfg, s, i, ledger), upgraded), ledger);
            && s'.scheduled.None? && s'.timers == []
            && LastEvent(s') == Some(Event(if upgraded then Succeeded else Failed, s.timers[i].ev))
  {
  }

  /** After a restart that concluded the upgrade `e`, the acknowledgement names `e` exactly when
      the replay before it schedules no other upgrade; otherwise it names that other one. */
  lemma AcknowledgesConcludedIff(cfg: Config, s: State, e: EvData, ledger: seq<Txn>, upgraded: bool)
    requires LastEvent(s) == Some(Event(Started, e))
    ensures var next := ReplaysTo(cfg, ledger); var named := Acknowledged(cfg, Restart(s, upgraded), ledger);
            && (named == Some(e) <==> next.None? || next.value.upgradeId == e.upgradeId)
            && (named != Some(e) ==> named == next)
  {
  }

  /** An acknowledgement is sent only if one is due, and then once. */
  lemma AcknowledgedOnce(cfg: Config, s: State, ledger: seq<Txn>, later: seq<Txn>)
    ensures !s.notify ==> Acknowledged(cfg, s, ledger) == None
    ensures Acknowledged(cfg, CaughtUp(cfg, s, ledger), later) == None
  {
  }
}
