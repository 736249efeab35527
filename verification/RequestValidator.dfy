/**
 The write request validator: the table of authorizers, the rule lookup (config state over
 the default map), and the validation of a request's actions.
 */
module RequestValidator {
  import opened Basics
  import opened AuthActions
  import opened AuthConstraints
  import opened Authorizing

  datatype Authorizer = RolesAuthorizer | EndorserAuthorizer | AndAuthorizer | OrAuthorizer | ForbiddenAuthorizer

  const DEFAULT_AUTHORIZERS: map<string, seq<Authorizer>> := map[
    ROLE_ID := [RolesAuthorizer, EndorserAuthorizer],
    AND_ID := [AndAuthorizer],
    OR_ID := [OrAuthorizer],
    FORBIDDEN_ID := [ForbiddenAuthorizer]
  ]

  function IdOf(c: Constraint): string {
    match c
    case RoleRule(_, _, _, _, _) => ROLE_ID
    case And(_) => AND_ID
    case Or(_) => OR_ID
    case Forbidden => FORBIDDEN_ID
  }

  /** An action that a request performs, and whether the author owns what it touches. */
  datatype Action = Action(def: ActionDef, isOwner: bool)

  datatype Verdict = Valid | Unauthorized(reason: Reason) | NoRule | MalformedId

  // ---------- rules ----------

  ghost predicate DistinctKeys(keys: seq<ActionDef>) {
    AllSeparable(keys) && forall i, j :: 0 <= i < j < |keys| ==> keys[i] != keys[j]
  }

  lemma CompileIsInjective(a: ActionDef, b: ActionDef)
    requires Separable(a.Fields()) && Separable(b.Fields()) && Compile(a) == Compile(b)
    ensures a == b
  {
    SplitUndoesCompileIff(a);
    SplitUndoesCompileIff(b);
  }

  /** The default map, in its order, and the rules of the config state, which go before it if
      the policy says so. */
  datatype Rules = Rules(keys: seq<ActionDef>, defaults: seq<Constraint>, useState: bool, state: map<string, Constraint>)
  {
    ghost predicate Valid() {
      |keys| == |defaults| && DistinctKeys(keys)
    }

    /** The rule in force for an action id. */
    ghost function For(actionId: string): Option<Constraint>
      requires Valid()
    {
      match KeyFor(keys, actionId)
      case Found(i) => Some(if useState && Compile(keys[i]) in state then state[Compile(keys[i])] else defaults[i])
      case NotFound => None
      case Malformed => None
    }

    /** A single action is authorized. */
    ghost predicate Allow(cache: Cache, request: Request, action: Action)
      requires Valid()
    {
      var c := For(Compile(action.def));
      c.Some? && Eval(cache, request, action.isOwner, c.value)
    }

    /** What validation checks: the first action, if there is one. */
    ghost predicate Accept(cache: Cache, request: Request, actions: seq<Action>)
      requires Valid()
    {
      actions == [] || Allow(cache, request, actions[0])
    }
  }

  class WriteRequestValidator {
    const cache: Cache
    const keys: seq<ActionDef>
    const defaults: seq<Constraint>
    const useState: bool
    var authorizers: map<string, seq<Authorizer>>
    var state: map<string, Constraint>

    ghost predicate Valid()
      reads this
    {
      authorizers == DEFAULT_AUTHORIZERS && Now().Valid()
    }

    ghost function Now(): Rules
      reads this
    {
      Rules(keys, defaults, useState, state)
    }

    constructor (cache: Cache, keys: seq<ActionDef>, defaults: seq<Constraint>, useState: bool)
      requires |keys| == |defaults| && DistinctKeys(keys)
      ensures Valid() && state == map[]
      ensures this.cache == cache && this.keys == keys && this.defaults == defaults && this.useState == useState
    {
      this.cache := cache;
      this.keys := keys;
      this.defaults := defaults;
      this.useState := useState;
      this.authorizers := map[];
      this.state := map[];
      new;
      IdsDiffer();
      RegisterAuthorizer(RolesAuthorizer, ROLE_ID);
      RegisterAuthorizer(EndorserAuthorizer, ROLE_ID);
      assert authorizers[ROLE_ID] == [RolesAuthorizer, EndorserAuthorizer];
      RegisterAuthorizer(AndAuthorizer, AND_ID);
      RegisterAuthorizer(OrAuthorizer, OR_ID);
      RegisterAuthorizer(ForbiddenAuthorizer, FORBIDDEN_ID);
      assert authorizers.Keys == {ROLE_ID, AND_ID, OR_ID, FORBIDDEN_ID};
      assert authorizers[AND_ID] == [AndAuthorizer] && authorizers[OR_ID] == [OrAuthorizer];
      assert authorizers[FORBIDDEN_ID] == [ForbiddenAuthorizer];
    }

    method RegisterAuthorizer(authorizer: Authorizer, id: string)
      modifies this`authorizers
      ensures authorizers == old(authorizers)[id := (if id in old(authorizers) then old(authorizers)[id] else []) + [authorizer]]
    {
      if id !in authorizers {
        authorizers := authorizers[id := []];
      }
      authorizers := authorizers[id := authorizers[id] + [authorizer]];
    }

    // ---------- evaluation ----------

    /** The composite authorizer: it returns true or raises, never false. */
    method Authorize(request: Request, c: Constraint, isOwner: bool) returns (o: Outcome)
      requires Valid()
      ensures !o.Denied?
      ensures o.Authorized? <==> Eval(cache, request, isOwner, c)
      decreases c, 1
    {
      IdsDiffer();
      var table := authorizers[IdOf(c)];
      for k := 0 to |table|
        invariant c.RoleRule? && k >= 1 ==> RoleOk(cache, request, isOwner, c)
        invariant c.RoleRule? && k >= 2 ==> EndorserOk(cache, request)
        invariant !c.RoleRule? && k >= 1 ==> Eval(cache, request, isOwner, c)
      {
        match table[k] {
          case RolesAuthorizer => o := RolesAuthorize(cache, request, isOwner, c);
          case EndorserAuthorizer => o := EndorserAuthorize(cache, request);
          case AndAuthorizer => o := AndAuthorize(request, c, isOwner);
          case OrAuthorizer => o := OrAuthorize(request, c, isOwner);
          case ForbiddenAuthorizer => o := Denied(ActionForbidden);
        }
        if o.Raised? {
          return;
        }
        if o.Denied? {
          return Raised(o.reason);
        }
      }
      return Authorized;
    }

    method AndAuthorize(request: Request, c: Constraint, isOwner: bool) returns (o: Outcome)
      requires Valid() && c.And?
      ensures !o.Denied?
      ensures o.Authorized? <==> Eval(cache, request, isOwner, c)
      decreases c, 0
    {
      for i := 0 to |c.rules|
        invariant forall j :: 0 <= j < i ==> Eval(cache, request, isOwner, c.rules[j])
      {
        o := Authorize(request, c.rules[i], isOwner);
        if o.Raised? {
          return;
        }
      }
      return Authorized;
    }

    /** Tries every alternative, also after one has succeeded. */
    method OrAuthorize(request: Request, c: Constraint, isOwner: bool) returns (o: Outcome)
      requires Valid() && c.Or?
      ensures !o.Denied?
      ensures o.Authorized? <==> Eval(cache, request, isOwner, c)
      decreases c, 0
    {
      var successes: seq<bool> := [];
      var fails: seq<Reason> := [];
      for i := 0 to |c.rules|
        invariant successes == [] <==> forall j :: 0 <= j < i ==> !Eval(cache, request, isOwner, c.rules[j])
      {
        var r := Authorize(request, c.rules[i], isOwner);
        if r.Raised? {
          fails := fails + [r.reason];
        } else {
          successes := successes + [true];
        }
      }
      if |successes| == 0 {
        return Raised(AllFailed(fails));
      }
      return Authorized;
    }

    // ---------- lookup and validation ----------

    method GetAuthConstraint(actionId: string) returns (r: Search, c: Constraint)
      requires Valid()
      ensures r == KeyFor(keys, actionId)
      ensures Now().For(actionId) == if r.Found? then Some(c) else None
    {
      var ids := seq(|keys|, i requires 0 <= i < |keys| => Compile(keys[i]));
      r := FindAuthConstraintKey(ids, keys, actionId);
      c := Forbidden;
      if r.Found? {
        c := if useState && ids[r.index] in state then state[ids[r.index]] else defaults[r.index];
      }
    }

    /** The loop returns or raises within its first round: only the first action is looked at. */
    method Validate(request: Request, actions: seq<Action>) returns (v: Verdict)
      requires Valid()
      ensures v.Valid? <==> Now().Accept(cache, request, actions)
      ensures v.NoRule? <==> actions != [] && KeyFor(keys, Compile(actions[0].def)).NotFound?
      ensures v.MalformedId? <==> actions != [] && KeyFor(keys, Compile(actions[0].def)).Malformed?
    {
      for k := 0 to |actions|
        invariant k == 0
      {
        var r, c := GetAuthConstraint(Compile(actions[k].def));
        if r.Malformed? {
          return MalformedId;
        }
        if r.Found? {
          var o := Authorize(request, c, actions[k].isOwner);
          if o.Raised? {
            return Unauthorized(o.reason);
          }
          return Verdict.Valid;
        }
        return NoRule;
      }
      return Verdict.Valid;
    }

    /** An AUTH_RULE transaction puts a rule for a key of the map into the config state. */
    method SetRule(k: nat, c: Constraint)
      requires Valid() && k < |keys|
      modifies this`state
      ensures Valid()
      ensures forall id :: Now().For(id) ==
                if useState && KeyFor(keys, id) == Found(k) then Some(c) else old(Now()).For(id)
    {
      state := state[Compile(keys[k]) := c];
      forall id
        ensures Now().For(id) == if useState && KeyFor(keys, id) == Found(k) then Some(c) else old(Now()).For(id)
      {
        var r := KeyFor(keys, id);
        if r.Found? && r.index != k && Compile(keys[r.index]) == Compile(keys[k]) {
          CompileIsInjective(keys[r.index], keys[k]);
          assert false;
        }
      }
    }
  }

  // ---------- several actions ----------

  /** What the id of an action is read as when it is looked up. */
  ghost function Target(action: Action): Option<ActionDef> {
    SplitActionId(Compile(action.def))
  }

  /** Acceptance stands for all actions of the list, whatever the rules, the ledger's roles and
      the request. */
  ghost predicate AcceptanceCoversAll(actions: seq<Action>) {
    forall rules: Rules, cache: Cache, request: Request ::
      rules.Valid() && rules.Accept(cache, request, actions) ==>
        forall i :: 0 <= i < |actions| ==> rules.Allow(cache, request, actions[i])
  }

  /** The other actions ask for nothing beyond the first: the same target, and ownership
      wherever the first has it. */
  ghost predicate SameAsFirst(actions: seq<Action>) {
    forall i :: 0 <= i < |actions| ==>
      Target(actions[i]) == Target(actions[0]) && (actions[0].isOwner ==> actions[i].isOwner)
  }

  const ANYONE := RoleRule(Some(ANY), 0, false, None, map[])
  const OWNER := RoleRule(Some(ANY), 0, true, None, map[])
  const PLAIN_REQUEST := Request(None, None, map[], None)

  lemma PlainRequestPasses(isOwner: bool)
    ensures Eval(map[], PLAIN_REQUEST, isOwner, ANYONE)
    ensures Eval(map[], PLAIN_REQUEST, isOwner, OWNER) <==> isOwner
  {
  }

  lemma MatchingBothWaysIsEqual(a: ActionDef, b: ActionDef)
    requires Matches(a, b) && Matches(b, a)
    ensures a == b
  {
  }

  lemma RuleOfOneKey(t: ActionDef, c: Constraint, action: Action)
    requires Separable(t.Fields())
    ensures var rules := Rules([t], [c], false, map[]);
            && rules.Valid()
            && rules.For(Compile(action.def)) ==
                 if Target(action).Some? && Matches(t, Target(action).value) then Some(c) else None
  {
  }

  lemma RuleOfTwoKeys(t: ActionDef, u: ActionDef, c: Constraint, d: Constraint, action: Action)
    requires Separable(t.Fields()) && Separable(u.Fields()) && t != u
    ensures var rules := Rules([t, u], [c, d], false, map[]);
            && rules.Valid()
            && rules.For(Compile(action.def)) ==
                 if Target(action).None? then None
                 else if Matches(t, Target(action).value) then Some(c)
                 else if Matches(u, Target(action).value) then Some(d) else None
  {
    var keys := [t, u];
    assert keys[0] == t && keys[1] == u;
    if Target(action).Some? {
      var i := FirstMatch(keys, Target(action).value, 0);
      assert i.Some? ==> i.value == 0 || i.value == 1;
    }
  }

  /** A map that allows the first action and not the other one. */
  lemma SecondCanBeRefused(first: Action, other: Action) returns (rules: Rules)
    requires Target(first).Some?
    requires Target(other) != Target(first) || (first.isOwner && !other.isOwner)
    ensures rules.Valid() && rules.Allow(map[], PLAIN_REQUEST, first) && !rules.Allow(map[], PLAIN_REQUEST, other)
  {
    var t := Target(first).value;
    CompileUndoesSplit(Compile(first.def));
    PlainRequestPasses(first.isOwner);
    PlainRequestPasses(other.isOwner);
    if Target(other) == Target(first) {
      rules := Rules([t], [OWNER], false, map[]);
      RuleOfOneKey(t, OWNER, first);
      RuleOfOneKey(t, OWNER, other);
    } else if Target(other).Some? && Matches(t, Target(other).value) {
      var u := Target(other).value;
      CompileUndoesSplit(Compile(other.def));
      if Matches(u, t) {
        MatchingBothWaysIsEqual(t, u);
      }
      rules := Rules([u, t], [Forbidden, ANYONE], false, map[]);
      RuleOfTwoKeys(u, t, Forbidden, ANYONE, first);
      RuleOfTwoKeys(u, t, Forbidden, ANYONE, other);
    } else {
      rules := Rules([t], [ANYONE], false, map[]);
      RuleOfOneKey(t, ANYONE, first);
      RuleOfOneKey(t, ANYONE, other);
    }
  }

  lemma SameTargetIsAllowed(rules: Rules, cache: Cache, request: Request, first: Action, other: Action)
    requires rules.Valid() && rules.Allow(cache, request, first)
    requires Target(first).Some? ==> Target(other) == Target(first) && (first.isOwner ==> other.isOwner)
    ensures rules.Allow(cache, request, other)
  {
    var c := rules.For(Compile(first.def)).value;
    if other.isOwner && !first.isOwner {
      OwnerMayMore(cache, request, c);
    }
  }

  /** Acceptance stands for all actions of a list exactly when the first has a malformed id, and
      so is never accepted, or the others ask for nothing beyond it. */
  lemma AcceptanceCoversAllIff(actions: seq<Action>)
    ensures AcceptanceCoversAll(actions) <==> (actions != [] && Target(actions[0]).None?) || SameAsFirst(actions)
  {
    if actions != [] && Target(actions[0]).Some? && !SameAsFirst(actions) {
      var i :| 0 <= i < |actions| && !(Target(actions[i]) == Target(actions[0]) && (actions[0].isOwner ==> actions[i].isOwner));
      var rules := SecondCanBeRefused(actions[0], actions[i]);
      assert rules.Accept(map[], PLAIN_REQUEST, actions);
    } else {
      forall rules: Rules, cache: Cache, request: Request | rules.Valid() && rules.Accept(cache, request, actions)
        ensures forall i :: 0 <= i < |actions| ==> rules.Allow(cache, request, actions[i])
      {
        forall i | 0 <= i < |actions|
          ensures rules.Allow(cache, request, actions[i])
        {
          SameTargetIsAllowed(rules, cache, request, actions[0], actions[i]);
        }
      }
    }
  }

  const NYM := "1"
  const ADD_NETWORK_MONITOR := AddAction(NYM, ROLE, NETWORK_MONITOR)
  const ADD_TRUSTEE := AddAction(NYM, ROLE, TRUSTEE)
  const ONE_TRUSTEE := RoleRule(Some(TRUSTEE), 1, false, None, map[])
  const ONE_STEWARD := RoleRule(Some(STEWARD), 1, false, None, map[])

  lemma ActionIsRead(a: ActionDef, isOwner: bool)
    requires Separable(a.Fields())
    ensures Target(Action(a, isOwner)) == Some(a)
  {
    SplitUndoesCompileIff(a);
  }

  lemma NymIdsAreSeparable()
    ensures Separable(ADD_NETWORK_MONITOR.Fields()) && Separable(ADD_TRUSTEE.Fields())
    ensures !Matches(ADD_TRUSTEE, ADD_NETWORK_MONITOR) && Matches(ADD_NETWORK_MONITOR, ADD_NETWORK_MONITOR)
  {
    assert |NETWORK_MONITOR| == 3 && |TRUSTEE| == 1 && TRUSTEE[0] == '0';
  }

  lemma StewardIsNoTrustee(steward: string)
    ensures var cache := map[steward := STEWARD];
            var request := Request(Some(steward), Some("signature"), map[], None);
            Eval(cache, request, true, ONE_STEWARD) && !Eval(cache, request, true, ONE_TRUSTEE)
  {
    assert STEWARD[0] == '2' && TRUSTEE[0] == '0' && ANY[0] == '*';
  }

  lemma EitherPasses(cache: Cache, request: Request, c: Constraint, d: Constraint)
    requires Eval(cache, request, true, c)
    ensures Eval(cache, request, true, Or([c, d]))
  {
    assert [c, d][0] == c;
  }

  lemma TwoActions(t: ActionDef, u: ActionDef, c: Constraint, d: Constraint, cache: Cache, request: Request)
    requires Separable(t.Fields()) && Separable(u.Fields()) && !Matches(t, u)
    requires !Eval(cache, request, true, c) && Eval(cache, request, true, d)
    ensures var rules := Rules([t, u], [c, d], false, map[]);
            && rules.Valid() && rules.Accept(cache, request, [Action(u, true), Action(t, true)])
            && rules.Allow(cache, request, Action(u, true)) && !rules.Allow(cache, request, Action(t, true))
  {
    ActionIsRead(t, true);
    ActionIsRead(u, true);
    RuleOfTwoKeys(t, u, c, d, Action(t, true));
    RuleOfTwoKeys(t, u, c, d, Action(u, true));
  }

  /** With two rules of the default map: a steward's list that adds a network monitor and then a
      trustee is accepted, though only the first of the two is allowed. */
  lemma FirstActionDecides(steward: string)
    ensures var rules := Rules([ADD_TRUSTEE, ADD_NETWORK_MONITOR], [ONE_TRUSTEE, Or([ONE_STEWARD, ONE_TRUSTEE])], false, map[]);
            var cache := map[steward := STEWARD];
            var request := Request(Some(steward), Some("signature"), map[], None);
            var actions := [Action(ADD_NETWORK_MONITOR, true), Action(ADD_TRUSTEE, true)];
            && rules.Valid() && rules.Accept(cache, request, actions)
            && rules.Allow(cache, request, actions[0]) && !rules.Allow(cache, request, actions[1])
  {
    NymIdsAreSeparable();
    StewardIsNoTrustee(steward);
    EitherPasses(map[steward := STEWARD], Request(Some(steward), Some("signature"), map[], None), ONE_STEWARD, ONE_TRUSTEE);
    TwoActions(ADD_TRUSTEE, ADD_NETWORK_MONITOR, ONE_TRUSTEE, Or([ONE_STEWARD, ONE_TRUSTEE]),
               map[steward := STEWARD], Request(Some(steward), Some("signature"), map[], None));
  }
}
