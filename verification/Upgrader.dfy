/**
 The upgrade scheduler of a node: it schedules and cancels upgrades from the config ledger,
 keeps an append-only event log that survives restarts, and drives pending callbacks.

 `UpgradeModel` gives every operation as a function of the scheduler's state; the class
 `Upgrader` performs them step by step and is proved against these functions.
 */
module UpgradeModel {
  import opened Basics

  const START := "start"
  const CANCEL := "cancel"

  type Version = seq<int>

  /** Transactions of the config ledger; `Foreign` stands for every other type, with whatever
      `name`, `version` and `action` its payload happens to hold. */
  datatype Txn =
    | PoolUpgrade(name: string, version: string, action: string, package: Option<string>,
                  schedule: map<string, int>, timeout: Option<int>, upgradeId: string)
    | Foreign(nameOf: Option<string>, versionOf: Option<string>, actionOf: Option<string>)

  datatype EvData = EvData(when: int, version: Version, upgradeId: string, pkgName: string)
  datatype Kind = Scheduled | Started | Succeeded | Failed | Cancelled
  datatype Event = Event(kind: Kind, data: EvData)

  /** Pending callbacks: the agent call of a scheduled upgrade, the timeout of a started one. */
  datatype Timer = AgentTimer(ev: EvData, failTimeout: int) | TimeoutTimer(ev: EvData)

  datatype State = State(scheduled: Option<EvData>, log: seq<Event>, timers: seq<Timer>,
                         sending: seq<Timer>, notify: bool)

  datatype Config = Config(nodeId: string, upgradeEntry: string, defaultTimeout: int,
                           parse: (string, string) -> Option<Version>)

  const INITIAL := State(None, [], [], [], false)

  // ---------- reading transactions ----------

  predicate IsStart(t: Txn) {
    t.PoolUpgrade? && t.action == START
  }

  predicate IsCancel(t: Txn) {
    t.PoolUpgrade? && t.action == CANCEL
  }

  function PackageOf(cfg: Config, t: Txn): string
    requires t.PoolUpgrade?
  {
    if t.package.Some? then t.package.value else cfg.upgradeEntry
  }

  function Parsed(cfg: Config, t: Txn): Option<Version>
    requires t.PoolUpgrade?
  {
    cfg.parse(PackageOf(cfg, t), t.version)
  }

  /** A START that this node takes part in. */
  predicate Effective(cfg: Config, t: Txn) {
    IsStart(t) && Parsed(cfg, t).Some? && cfg.nodeId in t.schedule
  }

  function EventData(cfg: Config, t: Txn): EvData
    requires Effective(cfg, t)
  {
    EvData(t.schedule[cfg.nodeId], Parsed(cfg, t).value, t.upgradeId, PackageOf(cfg, t))
  }

  function TimeoutOf(cfg: Config, t: Txn): int
    requires t.PoolUpgrade?
  {
    if t.timeout.Some? then t.timeout.value else cfg.defaultTimeout
  }

  // ---------- operations ----------

  function LastEvent(s: State): Option<Event> {
    if s.log == [] then None else Some(s.log[|s.log| - 1])
  }

  predicate Finalizing(k: Kind) {
    k.Succeeded? || k.Failed?
  }

  function Append(s: State, k: Kind, e: EvData): State {
    s.(log := s.log + [Event(k, e)])
  }

  function Schedule(s: State, e: EvData, failTimeout: int): State {
    Append(s, Scheduled, e).(scheduled := Some(e), timers := s.timers + [AgentTimer(e, failTimeout)])
  }

  function Unschedule(s: State): State {
    s.(timers := [], scheduled := None)
  }

  function CancelScheduled(s: State): State {
    if s.scheduled.None? then s else Append(Unschedule(s), Cancelled, s.scheduled.value)
  }

  /** This upgrade has already been carried out. */
  predicate Performed(s: State, upgradeId: string) {
    LastEvent(s).Some? && LastEvent(s).value.data.upgradeId == upgradeId && Finalizing(LastEvent(s).value.kind)
  }

  function HandleTxn(cfg: Config, s: State, t: Txn): State {
    if !t.PoolUpgrade? || Parsed(cfg, t).None? then s
    else if t.action == START then
      if !Effective(cfg, t) || Performed(s, t.upgradeId) then s
      else if s.scheduled == Some(EventData(cfg, t)) then s
      else Schedule(CancelScheduled(s), EventData(cfg, t), TimeoutOf(cfg, t))
    else if t.action == CANCEL then
      if s.scheduled.Some? && s.scheduled.value.version == Parsed(cfg, t).value then CancelScheduled(s) else s
    else s
  }

  /** The agent timer fires: the upgrade starts and the request to the control tool is sent. */
  function CallAgent(s: State, timer: Timer): State
    requires timer.AgentTimer?
  {
    Append(s, Started, timer.ev).(scheduled := None, sending := s.sending + [timer])
  }

  function Without<T>(s: seq<T>, i: nat): seq<T>
    requires i < |s|
  {
    s[..i] + s[i + 1..]
  }

  /** The request got through: wait for the upgrade to be performed. */
  function RequestSent(s: State, i: nat): State
    requires i < |s.sending|
  {
    s.(sending := Without(s.sending, i), timers := s.timers + [TimeoutTimer(s.sending[i].ev)])
  }

  function RequestFailed(s: State, i: nat): State
    requires i < |s.sending|
  {
    Unschedule(s.(sending := Without(s.sending, i)))
  }

  /** A new process: only the log survives, and a started upgrade is concluded in it. */
  function Restart(s: State, upgraded: bool): State {
    var s0 := State(None, s.log, [], [], false);
    if LastEvent(s).Some? && LastEvent(s).value.kind.Started? then
      Append(s0, if upgraded then Succeeded else Failed, LastEvent(s).value.data).(notify := true)
    else s0
  }

  // ---------- the ledger ----------

  function LastIndex(ledger: seq<Txn>, p: Txn -> bool): (r: Option<nat>)
    ensures r.Some? ==> r.value < |ledger| && p(ledger[r.value])
    ensures forall j :: (if r.Some? then r.value + 1 else 0) <= j < |ledger| ==> !p(ledger[j])
  {
    if ledger == [] then None
    else if p(ledger[|ledger| - 1]) then Some(|ledger| - 1)
    else LastIndex(ledger[..|ledger| - 1], p)
  }

  /** A CANCEL after position `i` that names the same version string. */
  ghost predicate CancelledByName(ledger: seq<Txn>, i: nat)
    requires i < |ledger| && ledger[i].PoolUpgrade?
  {
    exists j :: i < j < |ledger| && IsCancel(ledger[j]) && ledger[j].version == ledger[i].version
  }

  ghost function ProcessLedger(cfg: Config, s: State, ledger: seq<Txn>): State {
    var i := LastIndex(ledger, IsStart);
    if i.None? || CancelledByName(ledger, i.value) then s else HandleTxn(cfg, s, ledger[i.value])
  }

  /** What a replay of the ledger asks for: its last START, if it is meant for this node and
      no later CANCEL names its version. */
  ghost function ReplaysTo(cfg: Config, ledger: seq<Txn>): Option<EvData> {
    var i := LastIndex(ledger, IsStart);
    if i.None? || CancelledByName(ledger, i.value) || !Effective(cfg, ledger[i.value]) then None
    else Some(EventData(cfg, ledger[i.value]))
  }

  /** The config ledger has caught up: it is replayed, then a concluded upgrade is acknowledged. */
  ghost function CaughtUp(cfg: Config, s: State, ledger: seq<Txn>): State {
    ProcessLedger(cfg, s, ledger).(notify := false)
  }

  /** The upgrade whose result is acknowledged: that of the last event after the replay. */
  ghost function Acknowledged(cfg: Config, s: State, ledger: seq<Txn>): Option<EvData> {
    var last := LastEvent(ProcessLedger(cfg, s, ledger));
    if s.notify && last.Some? then Some(last.value.data) else None
  }

  /** A requested upgrade has not come about in time: everything is unscheduled, and the
      failure callback of the node replays the committed ledger. */
  ghost function DeclareTimeout(cfg: Config, s: State, e: EvData, ledger: seq<Txn>): State {
    if LastEvent(s) == Some(Event(Failed, e)) then s else CaughtUp(cfg, Unschedule(s), ledger)
  }

  ghost function FireTimer(cfg: Config, s: State, i: nat, ledger: seq<Txn>): State
    requires i < |s.timers|
  {
    var timer, rest := s.timers[i], s.(timers := Without(s.timers, i));
    if timer.AgentTimer? then CallAgent(rest, timer) else DeclareTimeout(cfg, rest, timer.ev, ledger)
  }
}

module Upgrading {
  import opened Basics
  import opened UpgradeModel

  class Upgrader {
    const config: Config
    var scheduledAction: Option<EvData>
    var actionLog: seq<Event>
    var timers: seq<Timer>
    var sending: seq<Timer>
    var shouldNotify: bool

    ghost function Now(): State
      reads this
    {
      State(scheduledAction, actionLog, timers, sending, shouldNotify)
    }

    /** A fresh process over an existing log; `upgraded` says whether the package manager
        reports the version that the last event of the log names. */
    constructor (config: Config, actionLog: seq<Event>, upgraded: bool)
      ensures this.config == config
      ensures Now() == Restart(INITIAL.(log := actionLog), upgraded)
    {
      this.config := config;
      this.scheduledAction := None;
      this.actionLog := actionLog;
      this.timers := [];
      this.sending := [];
      this.shouldNotify := false;
      new;
      if IsActionStarted() {
        var data := actionLog[|actionLog| - 1].data;
        shouldNotify := true;
        if !upgraded {
          this.actionLog := actionLog + [Event(Failed, data)];
        } else {
          this.actionLog := actionLog + [Event(Succeeded, data)];
        }
      }
    }

    predicate IsActionStarted()
      reads this
    {
      actionLog != [] && actionLog[|actionLog| - 1].kind.Started?
    }

    /** Searches the ledger from `start` (a sequence number) forwards or backwards. */
    method GetUpgradeTxn(ledger: seq<Txn>, matching: Txn -> bool, start: Option<nat>, reverse: bool) returns (seqNo: Option<nat>)
      requires start.Some? ==> if reverse then start.value <= |ledger| else 1 <= start.value
      ensures seqNo.Some? ==> 1 <= seqNo.value <= |ledger| && matching(ledger[seqNo.value - 1])
      ensures reverse ==>
                var from := if start.Some? then start.value else |ledger|;
                && (seqNo.Some? ==> seqNo.value <= from)
                && forall j :: (if seqNo.Some? then seqNo.value else 0) <= j < from ==> !matching(ledger[j])
      ensures !reverse ==>
                var from := if start.Some? then start.value else 1;
                && (seqNo.Some? ==> from <= seqNo.value)
                && forall j :: from - 1 <= j < (if seqNo.Some? then seqNo.value - 1 else |ledger|) ==> !matching(ledger[j])
    {
      var inc, n: int := 1, 1;
      if reverse {
        inc, n := -1, |ledger|;
      }
      if start.Some? {
        n := start.value;
      }
      ghost var from := n;
      while if reverse then n > 0 else n <= |ledger|
        invariant reverse ==> 0 <= n <= from && forall j :: n <= j < from ==> !matching(ledger[j])
        invariant !reverse ==> from <= n && forall j :: from - 1 <= j < n - 1 && j < |ledger| ==> !matching(ledger[j])
        decreases if reverse then n else |ledger| - n + 1
      {
        if matching(ledger[n - 1]) {
          return Some(n);
        }
        n := n + inc;
      }
      seqNo := None;
    }

    /** Schedules the last START of the ledger unless a later CANCEL names its version. */
    method ProcessLedger(ledger: seq<Txn>)
      modifies this
      ensures Now() == UpgradeModel.ProcessLedger(config, old(Now()), ledger)
    {
      var lastStart := GetUpgradeTxn(ledger, IsStart, None, true);
      assert lastStart == (var i := LastIndex(ledger, IsStart); if i.Some? then Some(i.value + 1) else None);
      if lastStart.Some? {
        var txn := ledger[lastStart.value - 1];
        var cancel := GetUpgradeTxn(ledger, t => IsCancel(t) && t.version == txn.version, Some(lastStart.value + 1), false);
        if cancel.Some? {
          assert CancelledByName(ledger, lastStart.value - 1) by {
            assert IsCancel(ledger[cancel.value - 1]);
          }
          return;
        }
        HandleUpgradeTxn(txn);
      }
    }

    method HandleUpgradeTxn(txn: Txn)
      modifies this
      ensures Now() == HandleTxn(config, old(Now()), txn)
    {
      if !txn.PoolUpgrade? {
        return;
      }
      var pkgName := if txn.package.Some? then txn.package.value else config.upgradeEntry;
      var version := config.parse(pkgName, txn.version);
      if version.None? {
        return;
      }
      if txn.action == START {
        if config.nodeId !in txn.schedule {
          return;
        }
        if actionLog != [] {
          var last := actionLog[|actionLog| - 1];
          if last.data.upgradeId == txn.upgradeId && Finalizing(last.kind) {
            return;
          }
        }
        var when := txn.schedule[config.nodeId];
        var failTimeout := if txn.timeout.Some? then txn.timeout.value else config.defaultTimeout;
        var newEvData := EvData(when, version.value, txn.upgradeId, pkgName);
        if scheduledAction.Some? {
          if scheduledAction.value == newEvData {
            return;
          }
          CancelScheduledUpgrade();
        }
        ScheduleUpgrade(newEvData, failTimeout);
        return;
      }
      if txn.action == CANCEL {
        if scheduledAction.Some? && scheduledAction.value.version == version.value {
          CancelScheduledUpgrade();
        }
      }
    }

    method ScheduleUpgrade(evData: EvData, failTimeout: int)
      modifies this
      ensures Now() == Schedule(old(Now()), evData, failTimeout)
    {
      actionLog := actionLog + [Event(Scheduled, evData)];
      scheduledAction := Some(evData);
      timers := timers + [AgentTimer(evData, failTimeout)];
    }

    method CancelScheduledUpgrade()
      modifies this
      ensures Now() == CancelScheduled(old(Now()))
    {
      if scheduledAction.Some? {
        var evData := scheduledAction.value;
        UnscheduleAction();
        actionLog := actionLog + [Event(Cancelled, evData)];
      }
    }

    method UnscheduleAction()
      modifies this
      ensures Now() == Unschedule(old(Now()))
    {
      timers := [];
      scheduledAction := None;
    }

    /** Runs when the config ledger has caught up, and as the failure callback of a timeout. */
    method LedgerCaughtUp(ledger: seq<Txn>) returns (acknowledged: Option<EvData>)
      modifies this
      ensures Now() == CaughtUp(config, old(Now()), ledger)
      ensures acknowledged == Acknowledged(config, old(Now()), ledger)
    {
      ProcessLedger(ledger);
      acknowledged := None;
      if shouldNotify {
        if actionLog != [] {
          acknowledged := Some(actionLog[|actionLog| - 1].data);
        }
        shouldNotify := false;
      }
    }

    /** One pending callback becomes due; `ledger` is the config ledger as committed by then. */
    method FireTimer(i: nat, ledger: seq<Txn>)
      requires i < |timers|
      modifies this
      ensures Now() == UpgradeModel.FireTimer(config, old(Now()), i, ledger)
    {
      var timer := timers[i];
      timers := timers[..i] + timers[i + 1..];
      match timer {
        case AgentTimer(ev, _) =>
          actionLog := actionLog + [Event(Started, ev)];
          scheduledAction := None;
          sending := sending + [timer];
        case TimeoutTimer(ev) =>
          if actionLog != [] && actionLog[|actionLog| - 1] == Event(Failed, ev) {
            return;
          }
          UnscheduleAction();
          var _ := LedgerCaughtUp(ledger);
      }
    }

    /** The request to the control tool is delivered, or given up after its retries. */
    method FinishSending(i: nat, delivered: bool)
      requires i < |sending|
      modifies this
      ensures Now() == if delivered then RequestSent(old(Now()), i) else RequestFailed(old(Now()), i)
    {
      var timer := sending[i];
      sending := sending[..i] + sending[i + 1..];
      if delivered {
        timers := timers + [TimeoutTimer(timer.ev)];
      } else {
        UnscheduleAction();
      }
    }
  }
}
