/**
 What every run of the upgrade scheduler keeps, over all interleavings of committed
 transactions, due callbacks, delivered and failed requests, ledger replays and restarts.

 The ledger given to a due timeout or a replay is whatever is committed at that moment; nothing
 is asked of it, so a forced upgrade that is handled before it commits is among the runs.
 */
module UpgradeRuns {
  import opened Basics
  import opened UpgradeModel

  datatype Input =
    | Committed(txn: Txn)
    | TimerDue(i: nat, ledger: seq<Txn>)
    | Delivered(i: nat)
    | GivenUp(i: nat)
    | Restarted(upgraded: bool)
    | Replayed(ledger: seq<Txn>)

  /** An input that refers to no pending callback or request changes nothing. */
  ghost function Next(cfg: Config, s: State, input: Input): State {
    match input
    case Committed(txn) => HandleTxn(cfg, s, txn)
    case TimerDue(i, ledger) => if i < |s.timers| then FireTimer(cfg, s, i, ledger) else s
    case Delivered(i) => if i < |s.sending| then RequestSent(s, i) else s
    case GivenUp(i) => if i < |s.sending| then RequestFailed(s, i) else s
    case Restarted(upgraded) => Restart(s, upgraded)
    case Replayed(ledger) => CaughtUp(cfg, s, ledger)
  }

  ghost function Run(cfg: Config, inputs: seq<Input>): State {
    if inputs == [] then INITIAL
    else Next(cfg, Run(cfg, inputs[..|inputs| - 1]), inputs[|inputs| - 1])
  }

  // ---------- what one transaction does ----------

  /** The data of an upgrade is what the transaction says of it for this node. */
  ghost predicate Asks(cfg: Config, t: Txn, e: EvData) {
    && t.PoolUpgrade? && t.action == "start"
    && cfg.nodeId in t.schedule && e.when == t.schedule[cfg.nodeId]
    && e.upgradeId == t.upgradeId
    && e.pkgName == (if t.package.Some? then t.package.value else cfg.upgradeEntry)
    && cfg.parse(e.pkgName, t.version) == Some(e.version)
  }

  /** A START that is not performed yet is scheduled as it asks, once: if it is scheduled
      already nothing changes, and another scheduled upgrade is cancelled first. */
  lemma StartIsScheduledAsAsked(cfg: Config, s: State, t: Txn, e: EvData)
    requires Asks(cfg, t, e)
    requires s.log != [] && s.log[|s.log| - 1].data.upgradeId == t.upgradeId ==>
               s.log[|s.log| - 1].kind != Succeeded && s.log[|s.log| - 1].kind != Failed
    ensures var timer := AgentTimer(e, if t.timeout.Some? then t.timeout.value else cfg.defaultTimeout);
            HandleTxn(cfg, s, t) ==
              match s.scheduled
              case None => State(Some(e), s.log + [Event(Scheduled, e)], s.timers + [timer], s.sending, s.notify)
              case Some(other) =>
                if other == e then s
                else State(Some(e), s.log + [Event(Cancelled, other), Event(Scheduled, e)], [timer], s.sending, s.notify)
  {
    if s.scheduled.Some? {
      assert s.log + [Event(Cancelled, s.scheduled.value)] + [Event(Scheduled, e)]
             == s.log + [Event(Cancelled, s.scheduled.value), Event(Scheduled, e)];
    }
  }

  /** A CANCEL takes away the scheduled upgrade if it has the same version, and nothing else. */
  lemma CancelTakesSameVersion(cfg: Config, s: State, t: Txn)
    requires t.PoolUpgrade? && t.action == "cancel"
    ensures var version := cfg.parse(if t.package.Some? then t.package.value else cfg.upgradeEntry, t.version);
            HandleTxn(cfg, s, t) ==
              if s.scheduled.Some? && version == Some(s.scheduled.value.version)
              then State(None, s.log + [Event(Cancelled, s.scheduled.value)], [], s.sending, s.notify)
              else s
  {
  }

  /** A START that asks nothing of this node, or whose upgrade is the one concluded last, and
      any other transaction change nothing. */
  lemma OthersChangeNothing(cfg: Config, s: State, t: Txn)
    requires !(t.PoolUpgrade? && t.action == "cancel")
    requires (exists e :: Asks(cfg, t, e)) ==>
               && s.log != [] && s.log[|s.log| - 1].data.upgradeId == t.upgradeId
               && (s.log[|s.log| - 1].kind == Succeeded || s.log[|s.log| - 1].kind == Failed)
    ensures HandleTxn(cfg, s, t) == s
  {
    if Effective(cfg, t) {
      assert Asks(cfg, t, EventData(cfg, t));
    }
  }

  /** A request that is settled is no longer under way; delivered, it leaves a timeout for its
      upgrade, given up, it leaves nothing scheduled. */
  lemma RequestIsSettled(s: State, i: nat)
    requires i < |s.sending|
    ensures var sent := RequestSent(s, i);
            && multiset(s.sending) == multiset(sent.sending) + multiset{s.sending[i]}
            && sent.timers == s.timers + [TimeoutTimer(s.sending[i].ev)]
            && sent.scheduled == s.scheduled && sent.log == s.log && sent.notify == s.notify
    ensures var failed := RequestFailed(s, i);
            && multiset(s.sending) == multiset(failed.sending) + multiset{s.sending[i]}
            && failed.timers == [] && failed.scheduled == None && failed.log == s.log && failed.notify == s.notify
  {
    AroundIndex(s.sending, i);
    assert multiset(s.sending) == multiset(s.sending[..i]) + multiset{s.sending[i]} + multiset(s.sending[i + 1..]);
  }

  // ---------- the log ----------

  /** What may precede an event: a cancelled or started upgrade was the scheduled one, a
      concluded upgrade was the started one. */
  ghost predicate Justified(log: seq<Event>, i: nat)
    requires i < |log|
  {
    match log[i].kind
    case Scheduled => true
    case Started => i > 0 && log[i - 1] == Event(Scheduled, log[i].data)
    case Cancelled => i > 0 && log[i - 1] == Event(Scheduled, log[i].data)
    case Succeeded => i > 0 && log[i - 1] == Event(Started, log[i].data)
    case Failed => i > 0 && log[i - 1] == Event(Started, log[i].data)
  }

  ghost predicate LogOk(log: seq<Event>) {
    forall i :: 0 <= i < |log| ==> Justified(log, i)
  }

  lemma LogExtends(log: seq<Event>, e: Event)
    requires LogOk(log)
    requires e.kind.Scheduled?
             || (log != [] && log[|log| - 1].data == e.data
                 && if e.kind.Started? || e.kind.Cancelled? then log[|log| - 1].kind.Scheduled?
                    else log[|log| - 1].kind.Started?)
    ensures LogOk(log + [e])
  {
    var log' := log + [e];
    forall i | 0 <= i < |log'|
      ensures Justified(log', i)
    {
      if i < |log| {
        assert Justified(log, i);
      }
    }
  }

  // ---------- pending callbacks ----------

  /** The upgrades with a pending agent call. */
  ghost function Agents(timers: seq<Timer>): seq<EvData> {
    if timers == [] then []
    else
      var rest, t := Agents(timers[..|timers| - 1]), timers[|timers| - 1];
      if t.AgentTimer? then rest + [t.ev] else rest
  }

  lemma {:induction false} AgentsConcat(a: seq<Timer>, b: seq<Timer>)
    ensures Agents(a + b) == Agents(a) + Agents(b)
  {
    if b == [] {
      assert a + b == a;
    } else {
      AgentsConcat(a, b[..|b| - 1]);
      assert (a + b)[..|a + b| - 1] == a + b[..|b| - 1];
    }
  }

  lemma AgentsOfOne(t: Timer)
    ensures Agents([t]) == if t.AgentTimer? then [t.ev] else []
  {
  }

  lemma AgentsOfThree(a: seq<Timer>, t: Timer, b: seq<Timer>)
    ensures Agents(a + [t] + b) == Agents(a) + (if t.AgentTimer? then [t.ev] else []) + Agents(b)
  {
    AgentsOfOne(t);
    AgentsConcat(a, [t]);
    AgentsConcat(a + [t], b);
  }

  lemma AgentsAround(timers: seq<Timer>, i: nat)
    requires i < |timers|
    ensures var a, b := Agents(timers[..i]), Agents(timers[i + 1..]);
            && Agents(Without(timers, i)) == a + b
            && Agents(timers) == a + (if timers[i].AgentTimer? then [timers[i].ev] else []) + b
  {
    AgentsConcat(timers[..i], timers[i + 1..]);
    AgentsOfThree(timers[..i], timers[i], timers[i + 1..]);
    AroundIndex(timers, i);
  }

  lemma OnlyOne<T>(a: seq<T>, x: T, b: seq<T>)
    requires |a + [x] + b| <= 1
    ensures a + b == [] && a + [x] + b == [x]
  {
    assert a == [] && b == [];
  }

  lemma NothingBetween<T>(a: seq<T>, b: seq<T>)
    ensures a + [] + b == a + b
  {
  }

  lemma AgentsWithout(timers: seq<Timer>, i: nat)
    requires i < |timers|
    ensures timers[i].TimeoutTimer? ==> Agents(Without(timers, i)) == Agents(timers)
    ensures timers[i].AgentTimer? && |Agents(timers)| <= 1 ==>
              Agents(timers) == [timers[i].ev] && Agents(Without(timers, i)) == []
  {
    AgentsAround(timers, i);
    var a, b := Agents(timers[..i]), Agents(timers[i + 1..]);
    if timers[i].TimeoutTimer? {
      NothingBetween(a, b);
    } else if |Agents(timers)| <= 1 {
      OnlyOne(a, timers[i].ev, b);
    }
  }

  // ---------- the invariant ----------

  ghost predicate Inv(s: State) {
    && LogOk(s.log)
    && Agents(s.timers) == (if s.scheduled.Some? then [s.scheduled.value] else [])
    && (s.scheduled.Some? ==> LastEvent(s) == Some(Event(Scheduled, s.scheduled.value)))
    && (LastEvent(s).Some? && Finalizing(LastEvent(s).value.kind) ==>
          s.sending == [] && s.timers == [])
  }

  lemma ScheduleKeeps(s: State, e: EvData, failTimeout: int)
    requires Inv(s) && s.scheduled.None?
    ensures Inv(Schedule(s, e, failTimeout))
  {
    LogExtends(s.log, Event(Scheduled, e));
    AgentsConcat(s.timers, [AgentTimer(e, failTimeout)]);
    assert Agents([AgentTimer(e, failTimeout)]) == [e];
  }

  lemma CancelKeeps(s: State)
    requires Inv(s)
    ensures Inv(CancelScheduled(s)) && CancelScheduled(s).scheduled.None?
  {
    if s.scheduled.Some? {
      LogExtends(s.log, Event(Cancelled, s.scheduled.value));
    }
  }

  lemma HandleKeeps(cfg: Config, s: State, t: Txn)
    requires Inv(s)
    ensures Inv(HandleTxn(cfg, s, t))
  {
    CancelKeeps(s);
    if Effective(cfg, t) {
      ScheduleKeeps(CancelScheduled(s), EventData(cfg, t), TimeoutOf(cfg, t));
    }
  }

  lemma CaughtUpKeeps(cfg: Config, s: State, ledger: seq<Txn>)
    requires Inv(s)
    ensures Inv(CaughtUp(cfg, s, ledger))
  {
    var i := LastIndex(ledger, IsStart);
    if i.Some? {
      HandleKeeps(cfg, s, ledger[i.value]);
    }
  }

  lemma AgentCallKeeps(s: State, i: nat)
    requires Inv(s) && i < |s.timers| && s.timers[i].AgentTimer?
    ensures Inv(CallAgent(s.(timers := Without(s.timers, i)), s.timers[i]))
  {
    AgentsWithout(s.timers, i);
    LogExtends(s.log, Event(Started, s.timers[i].ev));
  }

  lemma UnscheduleKeeps(s: State, timers: seq<Timer>)
    requires Inv(s)
    ensures Inv(Unschedule(s.(timers := timers)))
  {
  }

  lemma FireKeeps(cfg: Config, s: State, i: nat, ledger: seq<Txn>)
    requires Inv(s) && i < |s.timers|
    ensures Inv(FireTimer(cfg, s, i, ledger))
  {
    if s.timers[i].AgentTimer? {
      AgentCallKeeps(s, i);
    } else {
      assert !(LastEvent(s).Some? && LastEvent(s).value.kind.Failed?);
      UnscheduleKeeps(s, Without(s.timers, i));
      CaughtUpKeeps(cfg, Unschedule(s.(timers := Without(s.timers, i))), ledger);
    }
  }

  lemma SentKeeps(s: State, i: nat)
    requires Inv(s) && i < |s.sending|
    ensures Inv(RequestSent(s, i)) && Inv(RequestFailed(s, i))
  {
  }

  lemma RestartKeeps(s: State, upgraded: bool)
    requires Inv(s)
    ensures Inv(Restart(s, upgraded))
  {
    if LastEvent(s).Some? && LastEvent(s).value.kind.Started? {
      LogExtends(s.log, Event(if upgraded then Succeeded else Failed, LastEvent(s).value.data));
    }
  }

  lemma NextKeeps(cfg: Config, s: State, input: Input)
    requires Inv(s)
    ensures Inv(Next(cfg, s, input))
  {
    match input
    case Committed(txn) => HandleKeeps(cfg, s, txn);
    case TimerDue(i, ledger) => if i < |s.timers| { FireKeeps(cfg, s, i, ledger); }
    case Delivered(i) => if i < |s.sending| { SentKeeps(s, i); }
    case GivenUp(i) => if i < |s.sending| { SentKeeps(s, i); }
    case Restarted(upgraded) => RestartKeeps(s, upgraded);
    case Replayed(ledger) => CaughtUpKeeps(cfg, s, ledger);
  }

  lemma {:induction false} RunKeeps(cfg: Config, inputs: seq<Input>)
    ensures Inv(Run(cfg, inputs))
  {
    if inputs == [] {
    } else {
      RunKeeps(cfg, inputs[..|inputs| - 1]);
      NextKeeps(cfg, Run(cfg, inputs[..|inputs| - 1]), inputs[|inputs| - 1]);
    }
  }

  // ---------- what follows for every run ----------

  /** In every reachable log, cancelled and started events directly follow the scheduling of
      the same upgrade, and concluded events directly follow its start. */
  lemma LogIsWellFormed(cfg: Config, inputs: seq<Input>)
    ensures LogOk(Run(cfg, inputs).log)
  {
    RunKeeps(cfg, inputs);
  }

  /** A scheduled upgrade is the last thing logged and has exactly one pending agent call;
      with nothing scheduled there is none. */
  lemma ScheduledIsLoggedAndPending(cfg: Config, inputs: seq<Input>)
    ensures var s := Run(cfg, inputs);
            && (s.scheduled.Some? ==>
                  && LastEvent(s) == Some(Event(Scheduled, s.scheduled.value))
                  && Agents(s.timers) == [s.scheduled.value])
            && (s.scheduled.None? ==> Agents(s.timers) == [])
  {
    RunKeeps(cfg, inputs);
  }

  /** When an agent call becomes due its upgrade is still the scheduled one, so the start
      callback, which reads the version of the scheduled action, always finds it. */
  lemma DueAgentCallIsScheduled(cfg: Config, inputs: seq<Input>, i: nat)
    requires i < |Run(cfg, inputs).timers| && Run(cfg, inputs).timers[i].AgentTimer?
    ensures Run(cfg, inputs).scheduled == Some(Run(cfg, inputs).timers[i].ev)
  {
    RunKeeps(cfg, inputs);
    AgentsWithout(Run(cfg, inputs).timers, i);
  }

  /** The transactions a run hands to the scheduler, directly or on a ledger. */
  ghost function Seen(inputs: seq<Input>): set<Txn> {
    if inputs == [] then {} else Seen(inputs[..|inputs| - 1]) + Handed(inputs[|inputs| - 1])
  }

  ghost function Handed(input: Input): set<Txn> {
    match input
    case Committed(txn) => {txn}
    case TimerDue(_, ledger) => SetOf(ledger)
    case Replayed(ledger) => SetOf(ledger)
    case _ => {}
  }

  ghost predicate AskedFor(cfg: Config, txns: set<Txn>, e: EvData) {
    exists t :: t in txns && Asks(cfg, t, e)
  }

  ghost predicate AllAskedFor(cfg: Config, txns: set<Txn>, log: seq<Event>) {
    forall i :: 0 <= i < |log| && log[i].kind.Scheduled? ==> AskedFor(cfg, txns, log[i].data)
  }

  lemma AskedForByMore(cfg: Config, txns: set<Txn>, more: set<Txn>, log: seq<Event>)
    requires AllAskedFor(cfg, txns, log) && txns <= more
    ensures AllAskedFor(cfg, more, log)
  {
    forall i | 0 <= i < |log| && log[i].kind.Scheduled?
      ensures AskedFor(cfg, more, log[i].data)
    {
      assert AskedFor(cfg, txns, log[i].data);
    }
  }

  lemma HandleAsksFor(cfg: Config, s: State, t: Txn, txns: set<Txn>)
    requires AllAskedFor(cfg, txns, s.log) && t in txns
    ensures AllAskedFor(cfg, txns, HandleTxn(cfg, s, t).log)
  {
    if Effective(cfg, t) {
      assert Asks(cfg, t, EventData(cfg, t));
    }
  }

  lemma NextAsksFor(cfg: Config, s: State, input: Input, txns: set<Txn>)
    requires AllAskedFor(cfg, txns, s.log) && Handed(input) <= txns
    ensures AllAskedFor(cfg, txns, Next(cfg, s, input).log)
  {
    match input
    case Committed(txn) => HandleAsksFor(cfg, s, txn, txns);
    case TimerDue(i, ledger) =>
      if i < |s.timers| {
        CaughtUpAsksFor(cfg, Unschedule(s.(timers := Without(s.timers, i))), ledger, txns);
      }
    case Replayed(ledger) => CaughtUpAsksFor(cfg, s, ledger, txns);
    case _ =>
  }

  lemma CaughtUpAsksFor(cfg: Config, s: State, ledger: seq<Txn>, txns: set<Txn>)
    requires AllAskedFor(cfg, txns, s.log) && SetOf(ledger) <= txns
    ensures AllAskedFor(cfg, txns, CaughtUp(cfg, s, ledger).log)
  {
    var i := LastIndex(ledger, IsStart);
    if i.Some? {
      assert ledger[i.value] in SetOf(ledger);
      HandleAsksFor(cfg, s, ledger[i.value], txns);
    }
  }

  lemma {:induction false} SchedulesWereAskedFor(cfg: Config, inputs: seq<Input>)
    ensures AllAskedFor(cfg, Seen(inputs), Run(cfg, inputs).log)
  {
    if inputs == [] {
    } else {
      var front, last := inputs[..|inputs| - 1], inputs[|inputs| - 1];
      SchedulesWereAskedFor(cfg, front);
      AskedForByMore(cfg, Seen(front), Seen(inputs), Run(cfg, front).log);
      NextAsksFor(cfg, Run(cfg, front), last, Seen(inputs));
    }
  }

  /** Whatever a run logs, the scheduling, the start, the cancellation or the outcome of an
      upgrade, its time, version, id and package are those some START gives for this node. */
  lemma {:induction false} EveryEventWasAskedFor(cfg: Config, inputs: seq<Input>, i: nat)
    requires i < |Run(cfg, inputs).log|
    ensures AskedFor(cfg, Seen(inputs), Run(cfg, inputs).log[i].data)
    decreases i
  {
    SchedulesWereAskedFor(cfg, inputs);
    LogIsWellFormed(cfg, inputs);
    assert Justified(Run(cfg, inputs).log, i);
    if Run(cfg, inputs).log[i].kind.Scheduled? {
    } else {
      EveryEventWasAskedFor(cfg, inputs, i - 1);
    }
  }

  // ---------- timeouts ----------

  ghost function ReplayTimeout(cfg: Config, ledger: seq<Txn>): int
    requires ReplaysTo(cfg, ledger).Some?
  {
    TimeoutOf(cfg, ledger[LastIndex(ledger, IsStart).value])
  }

  ghost predicate Cleared(s: State) {
    s.scheduled.None? && s.timers == [] && (LastEvent(s).Some? ==> !Finalizing(LastEvent(s).value.kind))
  }

  lemma ReplayOfCleared(cfg: Config, s: State, ledger: seq<Txn>)
    requires Cleared(s)
    ensures var next := ReplaysTo(cfg, ledger);
            CaughtUp(cfg, s, ledger) ==
              if next.None? then s.(notify := false)
              else State(next, s.log + [Event(Scheduled, next.value)],
                         [AgentTimer(next.value, ReplayTimeout(cfg, ledger))], s.sending, false)
  {
  }

  lemma TimeoutStep(cfg: Config, s: State, i: nat, ledger: seq<Txn>)
    requires Inv(s) && i < |s.timers| && s.timers[i].TimeoutTimer?
    ensures var rest := Unschedule(s.(timers := Without(s.timers, i)));
            Cleared(rest) && FireTimer(cfg, s, i, ledger) == CaughtUp(cfg, rest, ledger)
    ensures var next := ReplaysTo(cfg, ledger);
            FireTimer(cfg, s, i, ledger) ==
              if next.None? then State(None, s.log, [], s.sending, false)
              else State(next, s.log + [Event(Scheduled, next.value)],
                         [AgentTimer(next.value, ReplayTimeout(cfg, ledger))], s.sending, false)
  {
    ReplayOfCleared(cfg, Unschedule(s.(timers := Without(s.timers, i))), ledger);
  }

  /** The guard of the timeout callback ("this upgrade is already logged as failed") is never
      true, so a due timeout always unschedules and replays. What is scheduled afterwards is
      what the ledger replays to, whatever was scheduled before; it is logged and pending. */
  lemma TimeoutReplays(cfg: Config, inputs: seq<Input>, i: nat, ledger: seq<Txn>)
    requires i < |Run(cfg, inputs).timers| && Run(cfg, inputs).timers[i].TimeoutTimer?
    ensures var s := Run(cfg, inputs); var s' := FireTimer(cfg, s, i, ledger); var next := ReplaysTo(cfg, ledger);
            && s'.scheduled == next
            && s'.log == s.log + (if next.Some? then [Event(Scheduled, next.value)] else [])
            && s'.timers == (if next.Some? then [AgentTimer(next.value, ReplayTimeout(cfg, ledger))] else [])
            && s'.sending == s.sending
  {
    RunKeeps(cfg, inputs);
    TimeoutStep(cfg, Run(cfg, inputs), i, ledger);
  }

  /** Inputs that take the scheduled upgrade `e` away without a word: a request that is given
      up, a restart, and a timeout when the ledger does not replay to `e`. */
  ghost predicate Clears(cfg: Config, s: State, e: EvData, input: Input) {
    match input
    case TimerDue(i, ledger) => i < |s.timers| && s.timers[i].TimeoutTimer? && ReplaysTo(cfg, ledger) != Some(e)
    case GivenUp(i) => i < |s.sending|
    case Restarted(_) => true
    case _ => false
  }

  /** The log tells what became of `e`: the first event after `s` says it started or was cancelled. */
  ghost predicate Told(s: State, s': State, e: EvData) {
    |s'.log| > |s.log| && (s'.log[|s.log|] == Event(Started, e) || s'.log[|s.log|] == Event(Cancelled, e))
  }

  /** A scheduled upgrade can be lost with no trace in the log, and that happens exactly when
      another upgrade cannot be requested, the node restarts, or another upgrade times out and
      the ledger does not replay to the scheduled one. */
  lemma LostSilentlyIff(cfg: Config, inputs: seq<Input>, input: Input)
    requires Run(cfg, inputs).scheduled.Some?
    ensures var s := Run(cfg, inputs); var s' := Next(cfg, s, input); var e := s.scheduled.value;
            (s'.scheduled != Some(e) && !Told(s, s', e)) <==> Clears(cfg, s, e, input)
  {
    var s := Run(cfg, inputs);
    RunKeeps(cfg, inputs);
    match input
    case Committed(txn) => HandleTells(cfg, s, txn);
    case TimerDue(i, ledger) =>
      if i < |s.timers| {
        AgentsWithout(s.timers, i);
        if s.timers[i].TimeoutTimer? {
          TimeoutReplays(cfg, inputs, i, ledger);
        }
      }
    case Replayed(ledger) =>
      var i := LastIndex(ledger, IsStart);
      if i.Some? {
        HandleTells(cfg, s, ledger[i.value]);
      }
    case _ =>
  }

  lemma HandleTells(cfg: Config, s: State, t: Txn)
    requires s.scheduled.Some?
    ensures HandleTxn(cfg, s, t).scheduled != s.scheduled ==> Told(s, HandleTxn(cfg, s, t), s.scheduled.value)
  {
  }

  lemma RunStep(cfg: Config, inputs: seq<Input>, input: Input)
    ensures Run(cfg, inputs + [input]) == Next(cfg, Run(cfg, inputs), input)
  {
  }

  lemma RunOne(cfg: Config, input: Input)
    ensures Run(cfg, [input]) == Next(cfg, INITIAL, input)
  {
    assert [input][..0] == [];
  }

  // ---------- two runs ----------

  /** One attempt: the agent is called, the request is delivered, nothing happens in time. */
  ghost function Attempt(ledger: seq<Txn>): seq<Input> {
    [TimerDue(0, ledger), Delivered(0), TimerDue(0, ledger)]
  }

  ghost function Attempts(ledger: seq<Txn>, n: nat): seq<Input> {
    if n == 0 then [Replayed(ledger)] else Attempts(ledger, n - 1) + Attempt(ledger)
  }

  ghost function Starts(log: seq<Event>, e: EvData): nat {
    if log == [] then 0
    else Starts(log[..|log| - 1], e) + (if log[|log| - 1] == Event(Started, e) then 1 else 0)
  }

  /** The state between two attempts. */
  ghost predicate Waiting(s: State, e: EvData, failTimeout: int, n: nat) {
    && s == State(Some(e), s.log, [AgentTimer(e, failTimeout)], [], false)
    && Starts(s.log, e) == n && LastEvent(s) == Some(Event(Scheduled, e))
  }

  lemma RunAttempt(cfg: Config, inputs: seq<Input>, ledger: seq<Txn>)
    ensures var s1 := Next(cfg, Run(cfg, inputs), TimerDue(0, ledger));
            Run(cfg, inputs + Attempt(ledger)) == Next(cfg, Next(cfg, s1, Delivered(0)), TimerDue(0, ledger))
  {
    RunStep(cfg, inputs, TimerDue(0, ledger));
    RunStep(cfg, inputs + [TimerDue(0, ledger)], Delivered(0));
    RunStep(cfg, inputs + [TimerDue(0, ledger)] + [Delivered(0)], TimerDue(0, ledger));
    assert inputs + Attempt(ledger) == inputs + [TimerDue(0, ledger)] + [Delivered(0)] + [TimerDue(0, ledger)];
  }

  lemma StartsAfter(log: seq<Event>, ev: Event, e: EvData)
    ensures Starts(log + [ev], e) == Starts(log, e) + (if ev == Event(Started, e) then 1 else 0)
  {
  }

  lemma FirstAttempt(cfg: Config, ledger: seq<Txn>)
    requires ReplaysTo(cfg, ledger).Some?
    ensures Waiting(CaughtUp(cfg, INITIAL, ledger), ReplaysTo(cfg, ledger).value, ReplayTimeout(cfg, ledger), 0)
  {
    ReplayOfCleared(cfg, INITIAL, ledger);
    var e := ReplaysTo(cfg, ledger).value;
    StartsAfter([], Event(Scheduled, e), e);
  }

  lemma AttemptRepeats(cfg: Config, s: State, e: EvData, failTimeout: int, n: nat, ledger: seq<Txn>)
    requires Waiting(s, e, failTimeout, n) && ReplaysTo(cfg, ledger) == Some(e)
    requires failTimeout == ReplayTimeout(cfg, ledger)
    ensures var s1 := Next(cfg, s, TimerDue(0, ledger));
            Waiting(Next(cfg, Next(cfg, s1, Delivered(0)), TimerDue(0, ledger)), e, failTimeout, n + 1)
  {
    var s1 := Next(cfg, s, TimerDue(0, ledger));
    assert s1 == State(None, s.log + [Event(Started, e)], [], [AgentTimer(e, failTimeout)], false);
    var s2 := Next(cfg, s1, Delivered(0));
    assert s2 == State(None, s1.log, [TimeoutTimer(e)], [], false);
    var s3 := Next(cfg, s2, TimerDue(0, ledger));
    ReplayOfCleared(cfg, State(None, s1.log, [], [], false), ledger);
    assert s3 == State(Some(e), s1.log + [Event(Scheduled, e)], [AgentTimer(e, failTimeout)], [], false);
    StartsAfter(s.log, Event(Started, e), e);
    StartsAfter(s1.log, Event(Scheduled, e), e);
  }

  lemma NextAttempt(cfg: Config, inputs: seq<Input>, ledger: seq<Txn>, n: nat)
    requires ReplaysTo(cfg, ledger).Some?
    requires Waiting(Run(cfg, inputs), ReplaysTo(cfg, ledger).value, ReplayTimeout(cfg, ledger), n)
    ensures Waiting(Run(cfg, inputs + Attempt(ledger)), ReplaysTo(cfg, ledger).value, ReplayTimeout(cfg, ledger), n + 1)
  {
    RunAttempt(cfg, inputs, ledger);
    AttemptRepeats(cfg, Run(cfg, inputs), ReplaysTo(cfg, ledger).value, ReplayTimeout(cfg, ledger), n, ledger);
  }

  /** An upgrade that never comes about is retried without end: as long as the ledger replays
      to it, every timeout schedules it again, and for every `n` it is started `n` times. */
  lemma {:induction false} TimedOutUpgradeIsRetried(cfg: Config, ledger: seq<Txn>, n: nat)
    requires ReplaysTo(cfg, ledger).Some?
    ensures Waiting(Run(cfg, Attempts(ledger, n)), ReplaysTo(cfg, ledger).value, ReplayTimeout(cfg, ledger), n)
  {
    if n == 0 {
      FirstAttempt(cfg, ledger);
      RunOne(cfg, Replayed(ledger));
    } else {
      TimedOutUpgradeIsRetried(cfg, ledger, n - 1);
      NextAttempt(cfg, Attempts(ledger, n - 1), ledger, n - 1);
    }
  }

  lemma FirstIsRequested(cfg: Config, t: Txn)
    requires Effective(cfg, t)
    ensures var e := EventData(cfg, t);
            Run(cfg, [Committed(t), TimerDue(0, []), Delivered(0)])
            == State(None, [Event(Scheduled, e), Event(Started, e)], [TimeoutTimer(e)], [], false)
  {
    var e, f := EventData(cfg, t), TimeoutOf(cfg, t);
    var i1 := [Committed(t)];
    var i2 := i1 + [TimerDue(0, [])];
    RunOne(cfg, Committed(t));
    assert Run(cfg, i1) == State(Some(e), [Event(Scheduled, e)], [AgentTimer(e, f)], [], false);
    RunStep(cfg, i1, TimerDue(0, []));
    assert Run(cfg, i2) == State(None, [Event(Scheduled, e), Event(Started, e)], [], [AgentTimer(e, f)], false);
    RunStep(cfg, i2, Delivered(0));
    assert i2 + [Delivered(0)] == [Committed(t), TimerDue(0, []), Delivered(0)];
  }

  lemma ReplaysToLastStart(cfg: Config, ledger: seq<Txn>)
    requires ledger != [] && Effective(cfg, ledger[|ledger| - 1])
    ensures ReplaysTo(cfg, ledger) == Some(EventData(cfg, ledger[|ledger| - 1]))
  {
  }

  /** The loss for any two upgrades: the first is started and requested, the second is
      scheduled, and when the first times out the second survives exactly if the ledger by
      then replays to it. A forced upgrade that has not been committed yet does not. */
  lemma TimeoutKeepsTheNextUpgradeIff(cfg: Config, t1: Txn, t2: Txn, ledger: seq<Txn>)
    requires Effective(cfg, t1) && Effective(cfg, t2)
    ensures var before := Run(cfg, [Committed(t1), TimerDue(0, []), Delivered(0), Committed(t2)]);
            var after := Run(cfg, [Committed(t1), TimerDue(0, []), Delivered(0), Committed(t2), TimerDue(0, ledger)]);
            && before.scheduled == Some(EventData(cfg, t2))
            && after.scheduled == ReplaysTo(cfg, ledger)
            && (ledger == [t1, t2] ==> after.scheduled == Some(EventData(cfg, t2)))
            && (ledger == [t1] ==> after.scheduled == Some(EventData(cfg, t1)))
  {
    var i3 := [Committed(t1), TimerDue(0, []), Delivered(0)];
    var i4 := i3 + [Committed(t2)];
    FirstIsRequested(cfg, t1);
    RunStep(cfg, i3, Committed(t2));
    TimeoutReplays(cfg, i4, 0, ledger);
    RunStep(cfg, i4, TimerDue(0, ledger));
    assert i4 == [Committed(t1), TimerDue(0, []), Delivered(0), Committed(t2)];
    assert i4 + [TimerDue(0, ledger)] == [Committed(t1), TimerDue(0, []), Delivered(0), Committed(t2), TimerDue(0, ledger)];
    ReplaysToLastStart(cfg, [t1, t2]);
    ReplaysToLastStart(cfg, [t1]);
  }
}
