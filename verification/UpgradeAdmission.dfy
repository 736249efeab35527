/**
 Which POOL_UPGRADE requests reach the config ledger: dynamic validation looks up the last
 transaction with the same name and version and turns the pair of actions into an
 authorization key.
 */
module UpgradeAdmission {
  import opened Basics
  import opened AuthActions
  import opened UpgradeModel

  const POOL_UPGRADE := "109"
  const ACTION := "action"

  const START_UPGRADE := AddAction(POOL_UPGRADE, ACTION, START)
  const CANCEL_UPGRADE := EditAction(POOL_UPGRADE, ACTION, START, CANCEL)

  /** An authorization map whose only POOL_UPGRADE rules are the two of the default map. */
  ghost predicate UpgradeRules(keys: seq<ActionDef>) {
    && AllSeparable(keys)
    && (forall i :: 0 <= i < |keys| && keys[i].txnType == POOL_UPGRADE ==>
          keys[i] == START_UPGRADE || keys[i] == CANCEL_UPGRADE)
    && START_UPGRADE in keys && CANCEL_UPGRADE in keys
  }

  lemma Constants()
    ensures forall c :: c in {POOL_UPGRADE, ADD_PREFIX, EDIT_PREFIX, ACTION, "*", START, CANCEL} ==>
              NoDelimiter(c) && !EndsInDash(c)
    ensures ADD_PREFIX != EDIT_PREFIX && START != CANCEL && START != "*" && CANCEL != "*"
  {
    assert ADD_PREFIX[0] == 'A' && EDIT_PREFIX[0] == 'E';
    assert START[0] == 's' && CANCEL[0] == 'c' && "*"[0] == '*';
  }

  /** The two keys alone are such a map. */
  lemma TwoKeysSuffice()
    ensures UpgradeRules([START_UPGRADE, CANCEL_UPGRADE])
  {
    Constants();
    var keys := [START_UPGRADE, CANCEL_UPGRADE];
    assert START_UPGRADE.Fields() == [POOL_UPGRADE, ADD_PREFIX, ACTION, "*", START];
    assert CANCEL_UPGRADE.Fields() == [POOL_UPGRADE, EDIT_PREFIX, ACTION, START, CANCEL];
    assert keys[0] == START_UPGRADE && keys[1] == CANCEL_UPGRADE;
  }

  lemma ThreeFirst<T>(a: T, b: T, c: T, rest: seq<T>)
    ensures [a] + ([b] + ([c] + rest)) == [a, b, c] + rest
  {
  }

  /** An id is read with its first three fields if these are free of delimiters. */
  lemma IdIsRead(a: ActionDef)
    requires forall c :: c in [a.txnType, a.prefix, a.field] ==> NoDelimiter(c) && !EndsInDash(c)
    ensures Split(Compile(a)) == [a.txnType, a.prefix, a.field] + Split(a.oldValue + DELIMITER + a.newValue)
  {
    var values := a.oldValue + DELIMITER + a.newValue;
    assert a.txnType in [a.txnType, a.prefix, a.field];
    SplitHead(a.field, values);
    SplitHead(a.prefix, a.field + DELIMITER + values);
    SplitHead(a.txnType, a.prefix + DELIMITER + (a.field + DELIMITER + values));
    JoinOfFive(a);
    ThreeFirst(a.txnType, a.prefix, a.field, Split(values));
  }

  /** The id of an ADD action is read as that action or not at all. */
  lemma AddIsRead(value: string)
    ensures var a := AddAction(POOL_UPGRADE, ACTION, value);
            SplitActionId(Compile(a)) == if NoDelimiter(value) then Some(a) else None
  {
    Constants();
    var a := AddAction(POOL_UPGRADE, ACTION, value);
    if NoDelimiter(value) {
      SplitUndoesCompileIff(a);
    } else {
      IdIsRead(a);
      SplitHead("*", value);
      assert |Split(Compile(a))| == 4 + |Split(value)|;
      assert FindDelimiter(value, 0) < |value|;
    }
  }

  /** The id of an EDIT action is read as one with the same values around a delimiter. */
  lemma EditIsRead(before: string, after: string)
    ensures var r := SplitActionId(Compile(EditAction(POOL_UPGRADE, ACTION, before, after)));
            r.Some? ==>
              && r.value == EditAction(POOL_UPGRADE, ACTION, r.value.oldValue, r.value.newValue)
              && r.value.oldValue + DELIMITER + r.value.newValue == before + DELIMITER + after
  {
    Constants();
    IdIsRead(EditAction(POOL_UPGRADE, ACTION, before, after));
    var values := before + DELIMITER + after;
    JoinUndoesSplit(values);
    if |Split(values)| == 2 {
      assert Split(values) == [Split(values)[0], Split(values)[1]];
      assert Join(Split(values)) == Split(values)[0] + DELIMITER + Split(values)[1];
    }
  }

  /** Two ways to write one string around a delimiter are the same if the string holds no other
      and no dash after it. */
  lemma OnlyDelimiter(a: string, b: string, c: string, d: string)
    requires Separable([a, b]) && (b != "" ==> b[0] != '-') && a + DELIMITER + b == c + DELIMITER + d
    ensures a == c && b == d
  {
    var w := a + DELIMITER + b;
    assert NoDelimiter([a, b][0]) && NoDelimiter([a, b][1]) && !EndsInDash([a, b][0]);
    FirstDelimiterAfter(a, b);
    assert DelimiterAt(c + DELIMITER + d, |c|);
    forall j: nat | |a| + 2 <= j < |w|
      ensures !DelimiterAt(w, j)
    {
      assert !DelimiterAt(b, j - |a| - 2);
    }
    assert w[..|a|] == a && w[|a| + 2..] == b;
    assert |a| == |c| ==> w[..|a|] == c && w[|a| + 2..] == d;
  }

  lemma UpgradeKeyFound(keys: seq<ActionDef>, a: ActionDef)
    requires UpgradeRules(keys) && a.txnType == POOL_UPGRADE
    ensures FirstMatch(keys, a, 0).Some? <==> Matches(START_UPGRADE, a) || Matches(CANCEL_UPGRADE, a)
  {
    var i :| 0 <= i < |keys| && keys[i] == START_UPGRADE;
    var j :| 0 <= j < |keys| && keys[j] == CANCEL_UPGRADE;
  }

  lemma AddRule(keys: seq<ActionDef>, value: string)
    requires UpgradeRules(keys)
    ensures HasRule(keys, AddAction(POOL_UPGRADE, ACTION, value)) <==> value == START
  {
    Constants();
    AddIsRead(value);
    UpgradeKeyFound(keys, AddAction(POOL_UPGRADE, ACTION, value));
  }

  lemma EditRule(keys: seq<ActionDef>, before: string, after: string)
    requires UpgradeRules(keys)
    ensures HasRule(keys, EditAction(POOL_UPGRADE, ACTION, before, after)) <==> before == START && after == CANCEL
  {
    Constants();
    var a := EditAction(POOL_UPGRADE, ACTION, before, after);
    EditIsRead(before, after);
    var r := SplitActionId(Compile(a));
    if r.Some? {
      UpgradeKeyFound(keys, r.value);
      if Matches(CANCEL_UPGRADE, r.value) {
        OnlyDelimiter(START, CANCEL, before, after);
      }
    }
    if before == START && after == CANCEL {
      SplitUndoesCompileIff(CANCEL_UPGRADE);
    }
  }

  /** Of all upgrade actions, with any strings for values, the map has a rule only for starting
      a new upgrade and for cancelling a started one. */
  lemma RulesAllowOnlyStartAndCancel(keys: seq<ActionDef>, before: string, after: string)
    requires UpgradeRules(keys)
    ensures HasRule(keys, AddAction(POOL_UPGRADE, ACTION, after)) <==> after == START
    ensures HasRule(keys, EditAction(POOL_UPGRADE, ACTION, before, after)) <==> before == START && after == CANCEL
  {
    AddRule(keys, after);
    EditRule(keys, before, after);
  }

  // ---------- dynamic validation ----------

  predicate SameUpgrade(t: Txn, name: string, version: string) {
    match t
    case PoolUpgrade(n, v, _, _, _, _, _) => n == name && v == version
    case Foreign(n, v, _) => n == Some(name) && v == Some(version)
  }

  function ActionOf(t: Txn): string {
    match t
    case PoolUpgrade(_, _, a, _, _, _, _) => a
    case Foreign(_, _, a) => if a.Some? then a.value else "*"
  }

  /** The action of the last transaction with this name and version. */
  ghost function Status(ledger: seq<Txn>, name: string, version: string): string {
    var i := LastIndex(ledger, t => SameUpgrade(t, name, version));
    if i.Some? then ActionOf(ledger[i.value]) else "*"
  }

  datatype Verdict = Admitted | AlreadyScheduled | NotAllowed | MalformedId | Unauthorized | NotPossible

  /** `additional_dynamic_validation`; `authorized` is the outcome of the rule that was found
      and `possible` that of the package checks. */
  ghost function Validate(keys: seq<ActionDef>, ledger: seq<Txn>, request: Txn, authorized: bool, possible: bool): Verdict
    requires request.PoolUpgrade?
  {
    var status := Status(ledger, request.name, request.version);
    if status == START && request.action == START then AlreadyScheduled
    else
      var action := if status == "*" then AddAction(POOL_UPGRADE, ACTION, request.action)
                    else EditAction(POOL_UPGRADE, ACTION, status, request.action);
      match KeyFor(keys, Compile(action))
      case NotFound => NotAllowed
      case Malformed => MalformedId
      case Found(_) => if !authorized then Unauthorized else if !possible then NotPossible else Admitted
  }

  /** A request is admitted only to start an upgrade nothing is known of, or to cancel one that
      was last started. */
  lemma AdmittedIff(keys: seq<ActionDef>, ledger: seq<Txn>, request: Txn, authorized: bool, possible: bool)
    requires UpgradeRules(keys) && request.PoolUpgrade?
    ensures var status := Status(ledger, request.name, request.version);
            Validate(keys, ledger, request, authorized, possible) == Admitted <==>
              && authorized && possible
              && ((status == "*" && request.action == START) || (status == START && request.action == CANCEL))
    ensures Validate(keys, ledger, request, authorized, possible) == AlreadyScheduled <==>
              Status(ledger, request.name, request.version) == "start" && request.action == "start"
  {
    Constants();
    RulesAllowOnlyStartAndCancel(keys, Status(ledger, request.name, request.version), request.action);
  }

  // ---------- reachable ledgers ----------

  /** A POOL_UPGRADE is a START or CANCEL that is admitted against the transactions before it,
      and no other transaction carries both a name and a version. */
  ghost predicate MayFollow(keys: seq<ActionDef>, ledger: seq<Txn>, t: Txn) {
    match t
    case PoolUpgrade(_, _, action, _, _, _, _) =>
      (action == START || action == CANCEL) && Validate(keys, ledger, t, true, true) == Admitted
    case Foreign(name, version, _) => name.None? || version.None?
  }

  ghost predicate Reachable(keys: seq<ActionDef>, ledger: seq<Txn>) {
    ledger != [] ==>
      var front := ledger[..|ledger| - 1];
      Reachable(keys, front) && MayFollow(keys, front, ledger[|ledger| - 1])
  }

  lemma {:induction false} ReachableUpTo(keys: seq<ActionDef>, ledger: seq<Txn>, j: nat)
    requires Reachable(keys, ledger) && j < |ledger|
    ensures MayFollow(keys, ledger[..j], ledger[j])
    decreases ledger
  {
    var n := |ledger| - 1;
    if j == n {
    } else {
      ReachableUpTo(keys, ledger[..n], j);
      assert ledger[..n][..j] == ledger[..j];
    }
  }

  lemma StatusAfter(ledger: seq<Txn>, t: Txn, name: string, version: string)
    ensures Status(ledger + [t], name, version) ==
              if SameUpgrade(t, name, version) then ActionOf(t) else Status(ledger, name, version)
  {
    var i := LastIndex(ledger + [t], t' => SameUpgrade(t', name, version));
    if !SameUpgrade(t, name, version) {
      assert forall j :: 0 <= j < |ledger| ==> (ledger + [t])[j] == ledger[j];
      assert i == LastIndex(ledger, t' => SameUpgrade(t', name, version));
    }
  }

  /** In particular a transaction decides the status of the upgrade it names by its action, also
      one of another type, where a missing action counts as none recorded. */
  lemma StatusIsLastAction(ledger: seq<Txn>, t: Txn, name: string, version: string)
    ensures t.PoolUpgrade? ==> Status(ledger + [t], t.name, t.version) == t.action
    ensures t.Foreign? && t.nameOf == Some(name) && t.versionOf == Some(version) ==>
              Status(ledger + [t], name, version) == if t.actionOf.None? then "*" else t.actionOf.value
  {
    if t.PoolUpgrade? {
      StatusAfter(ledger, t, t.name, t.version);
    } else {
      StatusAfter(ledger, t, name, version);
    }
  }

  /** A reachable ledger grows by every request that validation lets through. */
  lemma ReachableExtends(keys: seq<ActionDef>, ledger: seq<Txn>, t: Txn)
    requires UpgradeRules(keys) && Reachable(keys, ledger) && t.PoolUpgrade?
    requires var status := Status(ledger, t.name, t.version);
             (status == "*" && t.action == START) || (status == START && t.action == CANCEL)
    ensures Reachable(keys, ledger + [t])
  {
    AdmittedIff(keys, ledger, t, true, true);
    assert MayFollow(keys, ledger, t);
    var ledger' := ledger + [t];
    assert ledger'[..|ledger|] == ledger;
  }

  /** The actions recorded for one upgrade, in ledger order. */
  ghost function Actions(ledger: seq<Txn>, name: string, version: string): seq<string> {
    if ledger == [] then [] else
      var earlier, t := Actions(ledger[..|ledger| - 1], name, version), ledger[|ledger| - 1];
      if SameUpgrade(t, name, version) then earlier + [ActionOf(t)] else earlier
  }

  lemma {:induction false} LastAction(ledger: seq<Txn>, name: string, version: string)
    ensures var i := LastIndex(ledger, t => SameUpgrade(t, name, version));
            var actions := Actions(ledger, name, version);
            if i.None? then actions == [] else actions != [] && actions[|actions| - 1] == ActionOf(ledger[i.value])
  {
    var i := LastIndex(ledger, t => SameUpgrade(t, name, version));
    if ledger == [] || i == Some(|ledger| - 1) {
    } else {
      var front := ledger[..|ledger| - 1];
      LastAction(front, name, version);
      var k := LastIndex(front, t => SameUpgrade(t, name, version));
      assert forall j :: 0 <= j < |front| ==> front[j] == ledger[j];
      assert k == i;
    }
  }

  lemma StatusOfActions(ledger: seq<Txn>, name: string, version: string)
    ensures var actions := Actions(ledger, name, version);
            Status(ledger, name, version) == if actions == [] then "*" else actions[|actions| - 1]
  {
    LastAction(ledger, name, version);
  }

  ghost predicate Orderly(actions: seq<string>) {
    actions == [] || actions == [START] || actions == [START, CANCEL]
  }

  lemma OrderlyStep(actions: seq<string>, status: string, action: string)
    requires Orderly(actions) && status == if actions == [] then "*" else actions[|actions| - 1]
    requires (status == "*" && action == START) || (status == START && action == CANCEL)
    ensures Orderly(actions + [action])
  {
    Constants();
  }

  /** An upgrade is never restarted, never cancelled before it started, and never touched
      again once cancelled. */
  lemma {:induction false} OneStartThenAtMostOneCancel(keys: seq<ActionDef>, ledger: seq<Txn>, name: string, version: string)
    requires UpgradeRules(keys) && Reachable(keys, ledger)
    ensures var actions := Actions(ledger, name, version);
            actions == [] || actions == [START] || actions == [START, CANCEL]
    decreases ledger
  {
    if ledger == [] {
    } else {
      var front, t := ledger[..|ledger| - 1], ledger[|ledger| - 1];
      OneStartThenAtMostOneCancel(keys, front, name, version);
      if t.PoolUpgrade? && SameUpgrade(t, name, version) {
        AdmittedIff(keys, front, t, true, true);
        StatusOfActions(front, name, version);
        OrderlyStep(Actions(front, name, version), Status(front, name, version), t.action);
      }
    }
  }

  ghost predicate OnlyUpgradesAreNamed(ledger: seq<Txn>) {
    forall k :: 0 <= k < |ledger| && ledger[k].Foreign? ==> ledger[k].nameOf.None? || ledger[k].versionOf.None?
  }

  lemma {:induction false} ReachableNames(keys: seq<ActionDef>, ledger: seq<Txn>)
    requires Reachable(keys, ledger)
    ensures OnlyUpgradesAreNamed(ledger)
    decreases ledger
  {
    if ledger == [] {
    } else {
      ReachableNames(keys, ledger[..|ledger| - 1]);
    }
  }

  lemma MayFollowIf(keys: seq<ActionDef>, ledger: seq<Txn>, t: Txn)
    requires UpgradeRules(keys) && MayFollow(keys, ledger, t) && IsCancel(t)
    ensures Status(ledger, t.name, t.version) == START
  {
    AdmittedIff(keys, ledger, t, true, true);
    Constants();
  }

  lemma StartedBefore(ledger: seq<Txn>, name: string, version: string) returns (i: nat)
    requires OnlyUpgradesAreNamed(ledger) && Status(ledger, name, version) == START
    ensures i < |ledger| && IsStart(ledger[i]) && ledger[i].name == name && ledger[i].version == version
  {
    Constants();
    i := LastIndex(ledger, t => SameUpgrade(t, name, version)).value;
  }

  /** So every CANCEL on the ledger is preceded by the START of the same upgrade. */
  lemma CancelFollowsStart(keys: seq<ActionDef>, ledger: seq<Txn>, j: nat) returns (i: nat)
    requires UpgradeRules(keys) && Reachable(keys, ledger)
    requires j < |ledger| && IsCancel(ledger[j])
    ensures i < j && IsStart(ledger[i]) && ledger[i].name == ledger[j].name && ledger[i].version == ledger[j].version
  {
    ReachableUpTo(keys, ledger, j);
    MayFollowIf(keys, ledger[..j], ledger[j]);
    ReachableNames(keys, ledger);
    i := StartedBefore(ledger[..j], ledger[j].name, ledger[j].version);
  }
}
