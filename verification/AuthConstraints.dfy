/**
 Authorization constraints, their dictionary form, and the normalization that the 1.9.1 rule
 handler applies to that form.
 */
module AuthConstraints {
  import opened Basics

  const CONSTRAINT_ID := "constraint_id"
  const AUTH_CONSTRAINTS := "auth_constraints"
  const ROLE := "role"
  const METADATA := "metadata"
  const SIG_COUNT := "sig_count"
  const NEED_TO_BE_OWNER := "need_to_be_owner"
  const OFF_LEDGER_SIGNATURE := "off_ledger_signature"

  const ROLE_ID := "ROLE"
  const AND_ID := "AND"
  const OR_ID := "OR"
  const FORBIDDEN_ID := "FORBIDDEN"

  const ANY := "*"
  const TRUSTEE := "0"
  const STEWARD := "2"
  const ENDORSER := "101"
  const NETWORK_MONITOR := "201"

  /** No role stands for an identity owner. */
  datatype Constraint =
    | RoleRule(role: Option<string>, sigCount: int, needToBeOwner: bool, offLedger: Option<bool>,
               metadata: map<string, string>)
    | And(rules: seq<Constraint>)
    | Or(rules: seq<Constraint>)
    | Forbidden

  // ---------- dictionaries ----------

  datatype Atom = Str(s: string) | Null | Num(n: int) | Flag(b: bool) | Meta(m: map<string, string>)
  datatype Field = Plain(atom: Atom) | List(dicts: seq<Dict>)
  datatype Dict = Dict(fields: map<string, Field>)

  datatype Error = MissingKey | UnknownConstraint | BadRole | BadType | UnexpectedKey

  datatype Result<T> = Ok(value: T) | Err(error: Error) {
    predicate IsFailure() { Err? }
    function PropagateFailure<U>(): Result<U> requires Err? { Err(error) }
    function Extract(): T requires Ok? { value }
  }

  // ---------- as_dict ----------

  function RoleFields(c: Constraint): map<string, Field>
    requires c.RoleRule?
  {
    var fields := map[
      CONSTRAINT_ID := Plain(Str(ROLE_ID)),
      ROLE := Plain(if c.role.Some? then Str(c.role.value) else Null),
      SIG_COUNT := Plain(Num(c.sigCount)),
      NEED_TO_BE_OWNER := Plain(Flag(c.needToBeOwner)),
      METADATA := Plain(Meta(c.metadata))
    ];
    if c.offLedger.Some? then fields[OFF_LEDGER_SIGNATURE := Plain(Flag(c.offLedger.value))] else fields
  }

  function AsDict(c: Constraint): Dict
    decreases c, 1
  {
    match c
    case RoleRule(_, _, _, _, _) => Dict(RoleFields(c))
    case And(rules) => Dict(map[CONSTRAINT_ID := Plain(Str(AND_ID)), AUTH_CONSTRAINTS := List(AsDicts(rules))])
    case Or(rules) => Dict(map[CONSTRAINT_ID := Plain(Str(OR_ID)), AUTH_CONSTRAINTS := List(AsDicts(rules))])
    case Forbidden => Dict(map[CONSTRAINT_ID := Plain(Str(FORBIDDEN_ID))])
  }

  function AsDicts(rules: seq<Constraint>): (r: seq<Dict>)
    ensures |r| == |rules|
    decreases rules, 0
  {
    if rules == [] then [] else [AsDict(rules[0])] + AsDicts(rules[1..])
  }

  // ---------- from_dict ----------

  predicate AcceptedRole(role: Option<string>) {
    role.None? || role.value in {NETWORK_MONITOR, ENDORSER, STEWARD, TRUSTEE, ANY}
  }

  /** The constructor of a role constraint: the role must be known, and off-ledger signatures
      are allowed only for any role. */
  predicate ValidRole(role: Option<string>, offLedger: Option<bool>) {
    AcceptedRole(role) && (offLedger == Some(true) ==> role == Some(ANY))
  }

  ghost predicate WellFormed(c: Constraint) {
    match c
    case RoleRule(role, _, _, offLedger, _) => ValidRole(role, offLedger)
    case And(rules) => forall i :: 0 <= i < |rules| ==> WellFormed(rules[i])
    case Or(rules) => forall i :: 0 <= i < |rules| ==> WellFormed(rules[i])
    case Forbidden => true
  }

  function RoleFromDict(fields: map<string, Field>): Result<Constraint> {
    if ROLE !in fields || SIG_COUNT !in fields then Err(MissingKey) else
    var role :- match fields[ROLE]
      case Plain(Str(s)) => Ok(Some(s))
      case Plain(Null) => Ok(None)
      case _ => Err(BadRole);
    var sigCount :- match fields[SIG_COUNT]
      case Plain(Num(n)) => Ok(n)
      case _ => Err(BadType);
    var owner :- if NEED_TO_BE_OWNER !in fields then Ok(false) else
      match fields[NEED_TO_BE_OWNER]
      case Plain(Flag(b)) => Ok(b)
      case _ => Err(BadType);
    var offLedger :- if OFF_LEDGER_SIGNATURE !in fields then Ok(None) else
      match fields[OFF_LEDGER_SIGNATURE]
      case Plain(Flag(b)) => Ok(Some(b))
      case Plain(Null) => Ok(None)
      case _ => Err(BadType);
    var metadata :- if METADATA !in fields then Ok(map[]) else
      match fields[METADATA]
      case Plain(Meta(m)) => Ok(m)
      case _ => Err(BadType);
    if ValidRole(role, offLedger) then Ok(RoleRule(role, sigCount, owner, offLedger, metadata)) else Err(BadRole)
  }

  /** `create_constraint`, for the dictionary at the top and for each nested one; an id that is
      present but null is a KeyError at the top and below OR, and no known class below AND. */
  function Create(d: Dict, nullId: Error): Result<Constraint>
    decreases d, 1
  {
    if CONSTRAINT_ID !in d.fields then Err(MissingKey)
    else match d.fields[CONSTRAINT_ID]
      case Plain(Str(id)) =>
        if id == ROLE_ID then RoleFromDict(d.fields)
        else if id == FORBIDDEN_ID then Ok(Forbidden)
        else if id == AND_ID || id == OR_ID then
          if AUTH_CONSTRAINTS !in d.fields then Err(MissingKey)
          else match d.fields[AUTH_CONSTRAINTS]
            case List(dicts) =>
              var rules :- CreateAll(dicts, NullBelow(id));
              if d.fields.Keys != {CONSTRAINT_ID, AUTH_CONSTRAINTS} then Err(UnexpectedKey)
              else Ok(if id == AND_ID then And(rules) else Or(rules))
            case Plain(_) => Err(BadType)
        else Err(UnknownConstraint)
      case Plain(Null) => Err(nullId)
      case _ => Err(UnknownConstraint)
  }

  function NullBelow(id: string): Error {
    if id == AND_ID then UnknownConstraint else MissingKey
  }

  function CreateAll(dicts: seq<Dict>, nullId: Error): Result<seq<Constraint>>
    decreases dicts, 0
  {
    if dicts == [] then Ok([])
    else
      var first :- Create(dicts[0], nullId);
      var rest :- CreateAll(dicts[1..], nullId);
      Ok([first] + rest)
  }

  /** The roles a constraint may be about. */
  lemma ValidRoleIff(role: Option<string>, offLedger: Option<bool>)
    ensures ValidRole(role, offLedger) <==>
              && (role.None? || role.value in {"0", "2", "101", "201", "*"})
              && (offLedger == Some(true) ==> role == Some("*"))
  {
  }

  /** Leaving out an optional key of a role dictionary is the same as giving its default. */
  lemma DefaultsMayBeOmitted(fields: map<string, Field>)
    ensures "need_to_be_owner" in fields && fields["need_to_be_owner"] == Plain(Flag(false)) ==>
              RoleFromDict(fields - {"need_to_be_owner"}) == RoleFromDict(fields)
    ensures "off_ledger_signature" in fields && fields["off_ledger_signature"] == Plain(Null) ==>
              RoleFromDict(fields - {"off_ledger_signature"}) == RoleFromDict(fields)
    ensures "metadata" in fields && fields["metadata"] == Plain(Meta(map[])) ==>
              RoleFromDict(fields - {"metadata"}) == RoleFromDict(fields)
  {
    KeysDiffer();
  }

  // ---------- the round trip ----------

  lemma IdsDiffer()
    ensures ROLE_ID != AND_ID && ROLE_ID != OR_ID && ROLE_ID != FORBIDDEN_ID
    ensures AND_ID != OR_ID && AND_ID != FORBIDDEN_ID && OR_ID != FORBIDDEN_ID
  {
  }

  lemma KeysDiffer()
    ensures CONSTRAINT_ID != AUTH_CONSTRAINTS && CONSTRAINT_ID != ROLE && CONSTRAINT_ID != METADATA
    ensures CONSTRAINT_ID != SIG_COUNT && CONSTRAINT_ID != NEED_TO_BE_OWNER && CONSTRAINT_ID != OFF_LEDGER_SIGNATURE
    ensures ROLE != METADATA && ROLE != SIG_COUNT && ROLE != NEED_TO_BE_OWNER && ROLE != OFF_LEDGER_SIGNATURE
    ensures METADATA != SIG_COUNT && METADATA != NEED_TO_BE_OWNER && METADATA != OFF_LEDGER_SIGNATURE
    ensures SIG_COUNT != NEED_TO_BE_OWNER && SIG_COUNT != OFF_LEDGER_SIGNATURE
    ensures NEED_TO_BE_OWNER != OFF_LEDGER_SIGNATURE && AUTH_CONSTRAINTS != OFF_LEDGER_SIGNATURE
  {
  }

  /** Whatever a dictionary is rebuilt to has valid roles throughout; a list constraint comes only
      from a dictionary with its two keys and nothing else. */
  lemma {:induction false} CreatedIsWellFormed(d: Dict, nullId: Error)
    ensures Create(d, nullId).Ok? ==> WellFormed(Create(d, nullId).value)
    ensures Create(d, nullId).Ok? && (Create(d, nullId).value.And? || Create(d, nullId).value.Or?) ==>
              d.fields.Keys == {"constraint_id", "auth_constraints"}
    decreases d, 1
  {
    IdsDiffer();
    if AUTH_CONSTRAINTS in d.fields && d.fields[AUTH_CONSTRAINTS].List? {
      CreatedAreWellFormed(d.fields[AUTH_CONSTRAINTS].dicts, NullBelow(AND_ID));
      CreatedAreWellFormed(d.fields[AUTH_CONSTRAINTS].dicts, NullBelow(OR_ID));
    }
  }

  lemma {:induction false} CreatedAreWellFormed(dicts: seq<Dict>, nullId: Error)
    ensures CreateAll(dicts, nullId).Ok? ==>
              forall i :: 0 <= i < |CreateAll(dicts, nullId).value| ==> WellFormed(CreateAll(dicts, nullId).value[i])
    decreases dicts, 0
  {
    if dicts == [] {
    } else {
      CreatedIsWellFormed(dicts[0], nullId);
      CreatedAreWellFormed(dicts[1..], nullId);
    }
  }

  /** A null id is a missing key at the top of the dictionary and below OR, and an unknown
      constraint below AND. */
  lemma NullIdIsAnError(fields: map<string, Field>, rest: seq<Dict>, nullId: Error)
    ensures var nameless := Dict(fields["constraint_id" := Plain(Null)]);
            && Create(nameless, nullId) == Err(nullId)
            && Create(Dict(map["constraint_id" := Plain(Str("AND")), "auth_constraints" := List([nameless] + rest)]), nullId)
               == Err(UnknownConstraint)
            && Create(Dict(map["constraint_id" := Plain(Str("OR")), "auth_constraints" := List([nameless] + rest)]), nullId)
               == Err(MissingKey)
  {
    IdsDiffer();
    KeysDiffer();
    var nameless := Dict(fields["constraint_id" := Plain(Null)]);
    assert ([nameless] + rest)[0] == nameless;
    assert CreateAll([nameless] + rest, NullBelow(AND_ID)) == Err(UnknownConstraint);
    assert CreateAll([nameless] + rest, NullBelow(OR_ID)) == Err(MissingKey);
  }

  lemma RoleRoundTrip(c: Constraint)
    requires c.RoleRule?
    ensures RoleFromDict(RoleFields(c)) == if ValidRole(c.role, c.offLedger) then Ok(c) else Err(BadRole)
  {
  }

  /** Rebuilding a constraint from its dictionary gives the constraint back exactly when every
      role in it is valid, and fails otherwise. */
  lemma {:induction false} RoundTrip(c: Constraint, nullId: Error)
    ensures WellFormed(c) ==> Create(AsDict(c), nullId) == Ok(c)
    ensures !WellFormed(c) ==> Create(AsDict(c), nullId) == Err(BadRole)
    decreases c, 1
  {
    IdsDiffer();
    KeysDiffer();
    match c
    case RoleRule(_, _, _, _, _) => RoleRoundTrip(c);
    case And(rules) => RoundTripAll(rules, NullBelow(AND_ID));
    case Or(rules) => RoundTripAll(rules, NullBelow(OR_ID));
    case Forbidden =>
  }

  lemma {:induction false} RoundTripAll(rules: seq<Constraint>, nullId: Error)
    ensures (forall i :: 0 <= i < |rules| ==> WellFormed(rules[i])) ==> CreateAll(AsDicts(rules), nullId) == Ok(rules)
    ensures !(forall i :: 0 <= i < |rules| ==> WellFormed(rules[i])) ==> CreateAll(AsDicts(rules), nullId) == Err(BadRole)
    decreases rules, 0
  {
    if rules == [] {
    } else {
      RoundTrip(rules[0], nullId);
      RoundTripAll(rules[1..], nullId);
      assert rules == [rules[0]] + rules[1..];
      assert AsDicts(rules)[1..] == AsDicts(rules[1..]);
      assert forall i :: 1 <= i < |rules| ==> rules[i] == rules[1..][i - 1];
      assert (forall i :: 0 <= i < |rules| ==> WellFormed(rules[i])) <==>
             WellFormed(rules[0]) && (forall i :: 0 <= i < |rules[1..]| ==> WellFormed(rules[1..][i]));
    }
  }

  // ---------- normalization ----------

  /** A missing off-ledger flag becomes an explicit `False`, everywhere in the tree. */
  function Normalized(c: Constraint): Constraint
    decreases c, 1
  {
    match c
    case RoleRule(_, _, _, offLedger, _) => if offLedger.None? then c.(offLedger := Some(false)) else c
    case And(rules) => And(NormalizedAll(rules))
    case Or(rules) => Or(NormalizedAll(rules))
    case Forbidden => Forbidden
  }

  function NormalizedAll(rules: seq<Constraint>): (r: seq<Constraint>)
    ensures |r| == |rules| && forall i :: 0 <= i < |r| ==> r[i] == Normalized(rules[i])
    decreases rules, 0
  {
    if rules == [] then [] else [Normalized(rules[0])] + NormalizedAll(rules[1..])
  }

  lemma {:induction false} NormalizedTwice(c: Constraint)
    ensures Normalized(Normalized(c)) == Normalized(c)
    ensures WellFormed(Normalized(c)) <==> WellFormed(c)
    decreases c, 1
  {
    match c
    case RoleRule(_, _, _, _, _) =>
    case And(rules) => NormalizedTwiceAll(c, rules);
    case Or(rules) => NormalizedTwiceAll(c, rules);
    case Forbidden =>
  }

  lemma {:induction false} NormalizedTwiceAll(c: Constraint, rules: seq<Constraint>)
    requires (c.And? || c.Or?) && c.rules == rules
    ensures NormalizedAll(NormalizedAll(rules)) == NormalizedAll(rules)
    ensures forall i :: 0 <= i < |rules| ==> (WellFormed(NormalizedAll(rules)[i]) <==> WellFormed(rules[i]))
    decreases c, 0
  {
    forall i | 0 <= i < |rules|
      ensures Normalized(Normalized(rules[i])) == Normalized(rules[i])
      ensures WellFormed(NormalizedAll(rules)[i]) <==> WellFormed(rules[i])
    {
      NormalizedTwice(rules[i]);
    }
  }

  /** The constraint at the end of a path of positions. */
  ghost function NodeAt(c: Constraint, path: seq<nat>): Option<Constraint>
    decreases path
  {
    if path == [] then Some(c)
    else if (c.And? || c.Or?) && path[0] < |c.rules| then NodeAt(c.rules[path[0]], path[1..])
    else None
  }

  /** Same kind of constraint, with as many nested ones. */
  ghost predicate SameShape(n: Constraint, n': Constraint) {
    match n
    case RoleRule(_, _, _, _, _) => n'.RoleRule?
    case And(rules) => n'.And? && |n'.rules| == |rules|
    case Or(rules) => n'.Or? && |n'.rules| == |rules|
    case Forbidden => n'.Forbidden?
  }

  /** Along every path the normalized tree has what the tree has; a role there differs only in
      having an off-ledger flag, which is true exactly where it was. */
  lemma {:induction false} NormalizedAt(c: Constraint, path: seq<nat>)
    ensures NodeAt(Normalized(c), path).Some? <==> NodeAt(c, path).Some?
    ensures NodeAt(c, path).Some? ==>
              var n, n' := NodeAt(c, path).value, NodeAt(Normalized(c), path).value;
              && SameShape(n, n')
              && (n.RoleRule? ==>
                    n' == RoleRule(n.role, n.sigCount, n.needToBeOwner, Some(n.offLedger.Some? && n.offLedger.value),
                                   n.metadata))
    decreases path
  {
    if path == [] {
    } else if (c.And? || c.Or?) && path[0] < |c.rules| {
      NormalizedAt(c.rules[path[0]], path[1..]);
    }
  }

  lemma {:induction false} AsDictsAt(rules: seq<Constraint>, i: nat)
    requires i < |rules|
    ensures AsDicts(rules)[i] == AsDict(rules[i])
  {
    if i == 0 {
    } else {
      AsDictsAt(rules[1..], i - 1);
    }
  }
}
