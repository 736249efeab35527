/**
 Evaluation of authorization constraints by a family of authorizers that call each other and
 report failure partly by return value and partly by exception.
 */
module Authorizing {
  import opened Basics
  import opened AuthConstraints

  /** Without multi-signatures the map is empty; a DID is on the ledger if the cache knows it,
      and the role of an identity owner is stored as the empty string. */
  datatype Request = Request(identifier: Option<string>, signature: Option<string>,
                             signatures: map<string, string>, endorser: Option<string>)

  type Cache = map<string, string>

  datatype Reason =
    | NotOwner | AuthorNotOnLedger | AuthorMustSign | NotEnoughSignatures
    | ActionForbidden | WrongEndorserRole | EndorserMustSign | EndorserMissing
    | AllFailed(fails: seq<Reason>)

  /** An authorizer returns true, returns false with a reason, or raises. */
  datatype Outcome = Authorized | Denied(reason: Reason) | Raised(reason: Reason)

  // ---------- roles ----------

  function RoleOf(cache: Cache, did: Option<string>): Option<string> {
    if did.Some? && did.value in cache then Some(cache[did.value]) else None
  }

  predicate RoleAccepted(role: Option<string>, wanted: Option<string>) {
    role.Some? && ((if role.value == "" then None else role) == wanted || wanted == Some(ANY))
  }

  predicate Counts(cache: Cache, did: string, role: Option<string>, offLedger: bool) {
    offLedger || RoleAccepted(RoleOf(cache, Some(did)), role)
  }

  /** The signers that count towards a role. */
  ghost function Signers(cache: Cache, signatures: map<string, string>, role: Option<string>, offLedger: bool): set<string> {
    set did | did in signatures && Counts(cache, did, role, offLedger)
  }

  predicate Signed(request: Request) {
    request.signature.Some? && request.signature.value != ""
  }

  /** The signatures that count towards a role constraint. */
  ghost function Signatures(cache: Cache, request: Request, c: Constraint): nat
    requires c.RoleRule?
  {
    if Signed(request) then
      if c.offLedger == Some(true) || RoleAccepted(RoleOf(cache, request.identifier), c.role) then 1 else 0
    else if c.role == Some(ANY) then |request.signatures.Keys|
    else |Signers(cache, request.signatures, c.role, c.offLedger == Some(true))|
  }

  method GetSigCount(cache: Cache, request: Request, c: Constraint) returns (n: nat)
    requires c.RoleRule?
    ensures n == Signatures(cache, request, c)
  {
    if Signed(request) {
      return if c.offLedger == Some(true) || RoleAccepted(RoleOf(cache, request.identifier), c.role) then 1 else 0;
    } else if request.signatures == map[] {
      assert Signers(cache, request.signatures, c.role, c.offLedger == Some(true)) == {};
      return 0;
    }
    if c.role == Some(ANY) {
      return |request.signatures.Keys|;
    }
    n := 0;
    var rest := request.signatures.Keys;
    ghost var counted: set<string> := {};
    while rest != {}
      invariant rest <= request.signatures.Keys
      invariant counted == Signers(cache, request.signatures, c.role, c.offLedger == Some(true)) - rest
      invariant n == |counted|
      decreases rest
    {
      var did := Pick(rest);
      rest := rest - {did};
      if Counts(cache, did, c.role, c.offLedger == Some(true)) {
        n := n + 1;
        assert did !in counted;
        counted := counted + {did};
      }
    }
  }

  /** The role part of a constraint leaf, as a condition. */
  ghost predicate RoleOk(cache: Cache, request: Request, isOwner: bool, c: Constraint)
    requires c.RoleRule?
  {
    && (c.needToBeOwner ==> isOwner)
    && (c.sigCount > 0 && c.offLedger != Some(true) ==> RoleOf(cache, request.identifier).Some?)
    && (c.sigCount > 0 && request.signatures != map[] ==>
          request.identifier.Some? && request.identifier.value in request.signatures)
    && Signatures(cache, request, c) >= c.sigCount
  }

  method RolesAuthorize(cache: Cache, request: Request, isOwner: bool, c: Constraint) returns (o: Outcome)
    requires c.RoleRule?
    ensures !o.Raised?
    ensures o.Authorized? <==> RoleOk(cache, request, isOwner, c)
  {
    if c.needToBeOwner && !isOwner {
      return Denied(NotOwner);
    }
    if c.sigCount > 0 && c.offLedger != Some(true) && RoleOf(cache, request.identifier).None? {
      return Denied(AuthorNotOnLedger);
    }
    if c.sigCount > 0 && request.signatures != map[]
       && !(request.identifier.Some? && request.identifier.value in request.signatures) {
      return Denied(AuthorMustSign);
    }
    var count := GetSigCount(cache, request, c);
    if !(count >= c.sigCount) {
      return Denied(NotEnoughSignatures);
    }
    return Authorized;
  }

  /** For a rule about one role, several signatures count by the role the ledger gives the
      signer; identity owners are held with the empty string. */
  lemma SignaturesOfRole(cache: Cache, request: Request, c: Constraint)
    requires c.RoleRule? && c.role != Some("*") && c.role != Some("") && c.offLedger != Some(true)
    requires request.signature.None? || request.signature.value == ""
    ensures var role := if c.role.None? then "" else c.role.value;
            Signatures(cache, request, c) == |set did | did in request.signatures && did in cache && cache[did] == role|
  {
    var role := if c.role.None? then "" else c.role.value;
    assert Signers(cache, request.signatures, c.role, false)
           == set did | did in request.signatures && did in cache && cache[did] == role;
  }

  /** For any role, or with off-ledger signatures, every signature counts. */
  lemma AllSignaturesCount(cache: Cache, request: Request, c: Constraint)
    requires c.RoleRule? && (c.role == Some("*") || c.offLedger == Some(true))
    requires request.signature.None? || request.signature.value == ""
    ensures Signatures(cache, request, c) == |request.signatures|
  {
    if c.role != Some(ANY) {
      assert Signers(cache, request.signatures, c.role, true) == request.signatures.Keys;
    }
  }

  /** A single signature counts once if the author has the role or need not be on the ledger. */
  lemma SingleSignature(cache: Cache, request: Request, c: Constraint)
    requires c.RoleRule? && c.role != Some("")
    requires request.signature.Some? && request.signature.value != ""
    ensures var role := if c.role.None? then "" else c.role.value;
            var author := request.identifier;
            Signatures(cache, request, c) ==
              if c.offLedger == Some(true)
                 || (author.Some? && author.value in cache && (role == "*" || cache[author.value] == role)) then 1 else 0
  {
  }

  /** A further signature by somebody else of another role never changes what a rule about one
      role decides. */
  lemma OtherRoleNeverCounts(cache: Cache, request: Request, isOwner: bool, c: Constraint, did: string, signature: string)
    requires c.RoleRule? && c.role != Some("*") && c.role != Some("") && c.offLedger != Some(true)
    requires request.signatures != map[] && did !in request.signatures && Some(did) != request.identifier
    requires did in cache ==> cache[did] != if c.role.None? then "" else c.role.value
    ensures RoleOk(cache, request.(signatures := request.signatures[did := signature]), isOwner, c)
            <==> RoleOk(cache, request, isOwner, c)
  {
    var more := request.signatures[did := signature];
    assert Signers(cache, more, c.role, false) == Signers(cache, request.signatures, c.role, false);
  }

  /** The role part in terms of the ledger: ownership if asked for, and if any signature is
      asked for an author who is on the ledger (or need not be) and among several signers. */
  lemma RoleOkIff(cache: Cache, request: Request, isOwner: bool, c: Constraint)
    requires c.RoleRule?
    ensures RoleOk(cache, request, isOwner, c) <==>
              && (isOwner || !c.needToBeOwner)
              && Signatures(cache, request, c) >= c.sigCount
              && (c.sigCount > 0 && c.offLedger != Some(true) ==>
                    request.identifier.Some? && request.identifier.value in cache)
              && (c.sigCount > 0 && |request.signatures| > 0 ==>
                    request.identifier.Some? && request.identifier.value in request.signatures)
  {
  }

  // ---------- endorsers ----------

  predicate Privileged(role: Option<string>) {
    role.Some? && role.value in {ENDORSER, TRUSTEE, STEWARD}
  }

  /** An endorser, if named, has the endorser role and has signed or is the author (the empty
      DID need not sign); if none is named, nobody privileged has co-signed for an unprivileged
      author. */
  ghost predicate EndorserOk(cache: Cache, request: Request) {
    match request.endorser
    case Some(e) =>
      && RoleOf(cache, Some(e)) == Some(ENDORSER)
      && (request.identifier == Some(e) || e in request.signatures || e == "")
    case None =>
      || Privileged(RoleOf(cache, request.identifier))
      || forall did :: did in request.signatures && Some(did) != request.identifier ==>
           !Privileged(RoleOf(cache, Some(did)))
  }

  method EndorserAuthorize(cache: Cache, request: Request) returns (o: Outcome)
    ensures !o.Raised?
    ensures o.Authorized? <==> EndorserOk(cache, request)
  {
    assert ENDORSER[0] == '1' && |ENDORSER| == 3 && |TRUSTEE| == 1 && |STEWARD| == 1;
    // the endorser role
    if request.endorser.Some? && RoleOf(cache, request.endorser) != Some(ENDORSER) {
      return Denied(WrongEndorserRole);
    }
    // the presence of the endorser field
    if request.endorser != request.identifier {
      var named := request.endorser.Some? && request.endorser.value != "";
      if named && request.signatures == map[] {
        return Denied(EndorserMustSign);
      }
      if named && request.endorser.value !in request.signatures {
        return Denied(EndorserMustSign);
      }
    }
    if request.signatures == map[] {
      return Authorized;
    }
    var authorSigned := request.identifier.Some? && request.identifier.value in request.signatures;
    var hasExtraSigs := |request.signatures| > 1 || !authorSigned;
    if !hasExtraSigs {
      OnlyTheAuthor(request);
      return Authorized;
    }
    if Privileged(RoleOf(cache, request.identifier)) {
      return Authorized;
    }
    var hasPrivilegedSig := false;
    var rest := request.signatures.Keys;
    while rest != {} && !hasPrivilegedSig
      invariant rest <= request.signatures.Keys
      invariant !hasPrivilegedSig ==>
                  forall did :: did in request.signatures && did !in rest ==> !Privileged(RoleOf(cache, Some(did)))
      invariant hasPrivilegedSig ==>
                  exists did :: did in request.signatures && Privileged(RoleOf(cache, Some(did)))
      decreases rest
    {
      var did := Pick(rest);
      rest := rest - {did};
      hasPrivilegedSig := Privileged(RoleOf(cache, Some(did)));
    }
    if !hasPrivilegedSig {
      return Authorized;
    }
    if request.endorser.None? {
      return Denied(EndorserMissing);
    }
    return Authorized;
  }

  ghost predicate OnLedgerAs(cache: Cache, did: Option<string>, roles: set<string>) {
    did.Some? && did.value in cache && cache[did.value] in roles
  }

  /** The endorser part in terms of the ledger; trustees, stewards and endorsers endorse. */
  lemma EndorserOkIff(cache: Cache, request: Request)
    ensures EndorserOk(cache, request) <==>
              if request.endorser.Some? then
                && OnLedgerAs(cache, request.endorser, {"101"})
                && (request.endorser == request.identifier || request.endorser.value in request.signatures
                    || request.endorser == Some(""))
              else
                || OnLedgerAs(cache, request.identifier, {"0", "2", "101"})
                || forall did :: did in request.signatures && OnLedgerAs(cache, Some(did), {"0", "2", "101"}) ==>
                     request.identifier == Some(did)
  {
  }

  lemma OnlyTheAuthor(request: Request)
    requires |request.signatures| <= 1 && request.identifier.Some? && request.identifier.value in request.signatures
    ensures forall did :: did in request.signatures ==> Some(did) == request.identifier
  {
    var a := request.identifier.value;
    assert |request.signatures.Keys - {a}| == |request.signatures.Keys| - 1;
  }

  // ---------- Boolean semantics ----------

  ghost predicate Eval(cache: Cache, request: Request, isOwner: bool, c: Constraint) {
    match c
    case RoleRule(_, _, _, _, _) => RoleOk(cache, request, isOwner, c) && EndorserOk(cache, request)
    case And(rules) => forall i :: 0 <= i < |rules| ==> Eval(cache, request, isOwner, rules[i])
    case Or(rules) => exists i :: 0 <= i < |rules| && Eval(cache, request, isOwner, rules[i])
    case Forbidden => false
  }

  /** Owning what an action touches never hurts. */
  lemma {:induction false} OwnerMayMore(cache: Cache, request: Request, c: Constraint)
    requires Eval(cache, request, false, c)
    ensures Eval(cache, request, true, c)
  {
    match c
    case RoleRule(_, _, _, _, _) =>
    case And(rules) =>
      forall i | 0 <= i < |rules|
        ensures Eval(cache, request, true, rules[i])
      {
        OwnerMayMore(cache, request, rules[i]);
      }
    case Or(rules) =>
      var i :| 0 <= i < |rules| && Eval(cache, request, false, rules[i]);
      OwnerMayMore(cache, request, rules[i]);
    case Forbidden =>
      assert false;
  }

  /** The same tree with the endorser left out. */
  ghost predicate RolesEval(cache: Cache, request: Request, isOwner: bool, c: Constraint) {
    match c
    case RoleRule(_, _, _, _, _) => RoleOk(cache, request, isOwner, c)
    case And(rules) => forall i :: 0 <= i < |rules| ==> RolesEval(cache, request, isOwner, rules[i])
    case Or(rules) => exists i :: 0 <= i < |rules| && RolesEval(cache, request, isOwner, rules[i])
    case Forbidden => false
  }

  /** The tree holds without consulting any role: it rests on an empty AND. */
  ghost predicate Vacuous(c: Constraint) {
    match c
    case RoleRule(_, _, _, _, _) => false
    case And(rules) => forall i :: 0 <= i < |rules| ==> Vacuous(rules[i])
    case Or(rules) => exists i :: 0 <= i < |rules| && Vacuous(rules[i])
    case Forbidden => false
  }

  lemma {:induction false} EvalByEndorser(cache: Cache, request: Request, isOwner: bool, c: Constraint)
    ensures EndorserOk(cache, request) ==>
              (Eval(cache, request, isOwner, c) <==> RolesEval(cache, request, isOwner, c))
    ensures !EndorserOk(cache, request) ==> (Eval(cache, request, isOwner, c) <==> Vacuous(c))
    ensures Vacuous(c) ==> RolesEval(cache, request, isOwner, c)
  {
    if c.RoleRule? || c.Forbidden? {
    } else {
      forall i | 0 <= i < |c.rules|
        ensures EndorserOk(cache, request) ==>
                  (Eval(cache, request, isOwner, c.rules[i]) <==> RolesEval(cache, request, isOwner, c.rules[i]))
        ensures !EndorserOk(cache, request) ==> (Eval(cache, request, isOwner, c.rules[i]) <==> Vacuous(c.rules[i]))
        ensures Vacuous(c.rules[i]) ==> RolesEval(cache, request, isOwner, c.rules[i])
      {
        EvalByEndorser(cache, request, isOwner, c.rules[i]);
      }
    }
  }

  /** Authorization factors into the roles of the tree and one endorser check exactly when the
      endorser check holds or the tree does not rest on an empty AND. */
  lemma {:induction false} FactorsIff(cache: Cache, request: Request, isOwner: bool, c: Constraint)
    ensures (Eval(cache, request, isOwner, c) <==>
               RolesEval(cache, request, isOwner, c) && EndorserOk(cache, request))
            <==> EndorserOk(cache, request) || !Vacuous(c)
  {
    EvalByEndorser(cache, request, isOwner, c);
  }

  ghost predicate NoEmptyAnd(c: Constraint) {
    match c
    case RoleRule(_, _, _, _, _) => true
    case And(rules) => rules != [] && forall i :: 0 <= i < |rules| ==> NoEmptyAnd(rules[i])
    case Or(rules) => forall i :: 0 <= i < |rules| ==> NoEmptyAnd(rules[i])
    case Forbidden => true
  }

  lemma {:induction false} NoEmptyAndIsNotVacuous(c: Constraint)
    requires NoEmptyAnd(c)
    ensures !Vacuous(c)
  {
    if c.And? {
      NoEmptyAndIsNotVacuous(c.rules[0]);
    } else if c.Or? {
      forall i | 0 <= i < |c.rules|
        ensures !Vacuous(c.rules[i])
      {
        NoEmptyAndIsNotVacuous(c.rules[i]);
      }
    }
  }

  /** For a tree without empty AND, as the message schema has every submitted rule be,
      authorization always factors. */
  lemma SubmittedRuleFactors(cache: Cache, request: Request, isOwner: bool, c: Constraint)
    requires NoEmptyAnd(c)
    ensures Eval(cache, request, isOwner, c) <==>
              RolesEval(cache, request, isOwner, c) && EndorserOk(cache, request)
  {
    NoEmptyAndIsNotVacuous(c);
    FactorsIff(cache, request, isOwner, c);
  }

  /** Normalizing the off-ledger flag never changes a decision. */
  lemma {:induction false} NormalizedDecidesAlike(cache: Cache, request: Request, isOwner: bool, c: Constraint)
    ensures Eval(cache, request, isOwner, Normalized(c)) <==> Eval(cache, request, isOwner, c)
  {
    match c
    case RoleRule(_, _, _, _, _) =>
    case And(rules) =>
      forall i | 0 <= i < |rules|
        ensures Eval(cache, request, isOwner, NormalizedAll(rules)[i]) <==> Eval(cache, request, isOwner, rules[i])
      {
        NormalizedDecidesAlike(cache, request, isOwner, rules[i]);
      }
    case Or(rules) =>
      forall i | 0 <= i < |rules|
        ensures Eval(cache, request, isOwner, NormalizedAll(rules)[i]) <==> Eval(cache, request, isOwner, rules[i])
      {
        NormalizedDecidesAlike(cache, request, isOwner, rules[i]);
      }
    case Forbidden =>
  }

  /** A rule stored through the 1.9.1 handler is read back as its normalized form, which decides
      every request and action as the original does. */
  lemma LegacyRuleDecidesAlike(c: Constraint, cache: Cache, request: Request, isOwner: bool)
    requires WellFormed(c)
    ensures Create(AsDict(Normalized(c)), MissingKey) == Ok(Normalized(c))
    ensures Eval(cache, request, isOwner, Normalized(c)) <==> Eval(cache, request, isOwner, c)
  {
    NormalizedTwice(c);
    RoundTrip(Normalized(c), MissingKey);
    NormalizedDecidesAlike(cache, request, isOwner, c);
  }
}
