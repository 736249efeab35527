/**
 The dictionary form of constraints as mutable objects: building it, rebuilding a constraint
 from it without touching it, and the in-place normalization of the 1.9.1 rule handler.
 */
module ConstraintObjects {
  import opened Basics
  import opened AuthConstraints

  /** A Python dictionary; `from_dict` stores finished constraints in its working copy. */
  class Obj {
    var fields: map<string, Item>

    constructor (fields: map<string, Item>)
      ensures this.fields == fields
    {
      this.fields := fields;
    }
  }

  datatype Item = PlainItem(atom: Atom) | ListItem(objs: seq<Obj>) | Built(rules: seq<Constraint>)

  type Heap = map<Obj, map<string, Item>>

  ghost function Snapshot(r: set<Obj>): Heap
    reads r
  {
    map o | o in r :: o.fields
  }

  // ---------- objects that represent a dictionary ----------

  ghost predicate Represents(h: Heap, o: Obj, d: Dict)
    decreases d
  {
    && o in h
    && h[o].Keys == d.fields.Keys
    && forall k :: k in d.fields ==> RepresentsField(h, h[o][k], d.fields[k])
  }

  ghost predicate RepresentsField(h: Heap, item: Item, f: Field)
    decreases f
  {
    match f
    case Plain(a) => item == PlainItem(a)
    case List(dicts) =>
      && item.ListItem? && |item.objs| == |dicts|
      && forall i :: 0 <= i < |dicts| ==> Represents(h, item.objs[i], dicts[i])
  }

  lemma {:induction false} MoreObjects(h: Heap, h': Heap, o: Obj, d: Dict)
    requires Represents(h, o, d)
    requires forall x :: x in h ==> x in h' && h'[x] == h[x]
    ensures Represents(h', o, d)
    decreases d
  {
    forall k | k in d.fields
      ensures RepresentsField(h', h'[o][k], d.fields[k])
    {
      assert RepresentsField(h, h[o][k], d.fields[k]);
      if d.fields[k].List? {
        forall i | 0 <= i < |d.fields[k].dicts|
          ensures Represents(h', h[o][k].objs[i], d.fields[k].dicts[i])
        {
          MoreObjects(h, h', h[o][k].objs[i], d.fields[k].dicts[i]);
        }
      }
    }
  }

  // ---------- as_dict ----------

  function RoleItems(c: Constraint): map<string, Item>
    requires c.RoleRule?
  {
    map k | k in RoleFields(c) :: PlainItem(match RoleFields(c)[k] case Plain(a) => a case List(_) => Null)
  }

  method BuildDict(c: Constraint) returns (o: Obj, ghost r: set<Obj>)
    ensures fresh(r)
    ensures Represents(Snapshot(r), o, AsDict(c))
    decreases c, 1
  {
    match c
    case RoleRule(_, _, _, _, _) =>
      o := new Obj(RoleItems(c));
      r := {o};
    case And(rules) =>
      o, r := BuildNested(AND_ID, c);
    case Or(rules) =>
      o, r := BuildNested(OR_ID, c);
    case Forbidden =>
      o := new Obj(map[CONSTRAINT_ID := PlainItem(Str(FORBIDDEN_ID))]);
      r := {o};
  }

  method BuildNested(id: string, c: Constraint) returns (o: Obj, ghost r: set<Obj>)
    requires (c.And? && id == AND_ID) || (c.Or? && id == OR_ID)
    ensures fresh(r)
    ensures Represents(Snapshot(r), o, AsDict(c))
    decreases c, 0
  {
    var rules := c.rules;
    var objs: seq<Obj> := [];
    r := {};
    for k := 0 to |rules|
      invariant fresh(r)
      invariant |objs| == k
      invariant forall i :: 0 <= i < k ==> Represents(Snapshot(r), objs[i], AsDict(rules[i]))
    {
      ghost var h := Snapshot(r);
      var child;
      ghost var below;
      child, below := BuildDict(rules[k]);
      ghost var h' := Snapshot(r + below);
      forall i | 0 <= i < k
        ensures Represents(h', objs[i], AsDict(rules[i]))
      {
        MoreObjects(h, h', objs[i], AsDict(rules[i]));
      }
      MoreObjects(Snapshot(below), h', child, AsDict(rules[k]));
      objs, r := objs + [child], r + below;
    }
    ghost var h := Snapshot(r);
    o := new Obj(map[CONSTRAINT_ID := PlainItem(Str(id)), AUTH_CONSTRAINTS := ListItem(objs)]);
    r := r + {o};
    forall i | 0 <= i < |rules|
      ensures Represents(Snapshot(r), objs[i], AsDicts(rules)[i])
    {
      MoreObjects(h, Snapshot(r), objs[i], AsDict(rules[i]));
      AsDictsAt(rules, i);
    }
    assert RepresentsField(Snapshot(r), ListItem(objs), List(AsDicts(rules)));
    KeysDiffer();
  }

  // ---------- create_constraint ----------

  /** The view of a role dictionary that its constructor reads. */
  function PlainView(fields: map<string, Item>): map<string, Field> {
    map k | k in fields :: match fields[k] case PlainItem(a) => Plain(a) case _ => List([])
  }

  lemma RoleReadsPlainView(h: Heap, fields: map<string, Item>, d: Dict)
    requires fields.Keys == d.fields.Keys - {CONSTRAINT_ID}
    requires forall k :: k in fields ==> RepresentsField(h, fields[k], d.fields[k])
    ensures RoleFromDict(PlainView(fields)) == RoleFromDict(d.fields)
  {
  }

  /** Rebuilds the constraint.  There is no `modifies` clause: the dictionary given, and every
      dictionary nested in it, is left as it was. */
  method CreateConstraint(input: Obj, nullId: Error, ghost d: Dict, ghost r: set<Obj>) returns (res: Result<Constraint>)
    requires Represents(Snapshot(r), input, d)
    ensures res == Create(d, nullId)
    decreases d, 2
  {
    var o := new Obj(input.fields);
    if CONSTRAINT_ID !in o.fields {
      return Err(MissingKey);
    }
    var id := o.fields[CONSTRAINT_ID];
    o.fields := o.fields - {CONSTRAINT_ID};
    assert RepresentsField(Snapshot(r), id, d.fields[CONSTRAINT_ID]);
    match id {
      case PlainItem(Str(s)) =>
        res := FromDict(s, o, d, r, nullId);
      case PlainItem(Null) =>
        res := Err(nullId);
      case _ =>
        res := Err(UnknownConstraint);
    }
  }

  /** The `from_dict` of the class an id stands for; it works on the copy it is given. */
  method FromDict(id: string, o: Obj, ghost d: Dict, ghost r: set<Obj>, ghost nullId: Error) returns (res: Result<Constraint>)
    requires o !in r
    requires CONSTRAINT_ID in d.fields && d.fields[CONSTRAINT_ID] == Plain(Str(id))
    requires o.fields.Keys == d.fields.Keys - {CONSTRAINT_ID}
    requires forall k :: k in o.fields ==> RepresentsField(Snapshot(r), o.fields[k], d.fields[k])
    modifies o
    ensures res == Create(d, nullId)
    decreases d, 1
  {
    IdsDiffer();
    KeysDiffer();
    if id == ROLE_ID {
      RoleReadsPlainView(Snapshot(r), o.fields, d);
      res := RoleFromDict(PlainView(o.fields));
    } else if id == FORBIDDEN_ID {
      res := Ok(Forbidden);
    } else if id == AND_ID || id == OR_ID {
      if AUTH_CONSTRAINTS !in o.fields {
        return Err(MissingKey);
      }
      assert RepresentsField(Snapshot(r), o.fields[AUTH_CONSTRAINTS], d.fields[AUTH_CONSTRAINTS]);
      match o.fields[AUTH_CONSTRAINTS] {
        case ListItem(objs) =>
          var rules := CreateAllFrom(objs, NullBelow(id), d.fields[AUTH_CONSTRAINTS].dicts, r);
          if rules.Err? {
            return Err(rules.error);
          }
          o.fields := o.fields[AUTH_CONSTRAINTS := Built(rules.value)];
          assert o.fields.Keys == d.fields.Keys - {CONSTRAINT_ID};
          OneLess(d.fields.Keys, CONSTRAINT_ID, AUTH_CONSTRAINTS);
          if o.fields.Keys != {AUTH_CONSTRAINTS} {
            return Err(UnexpectedKey);
          }
          res := Ok(if id == AND_ID then And(rules.value) else Or(rules.value));
        case _ =>
          res := Err(BadType);
      }
    } else {
      res := Err(UnknownConstraint);
    }
  }

  method CreateAllFrom(objs: seq<Obj>, nullId: Error, ghost dicts: seq<Dict>, ghost r: set<Obj>) returns (res: Result<seq<Constraint>>)
    requires |objs| == |dicts|
    requires forall i :: 0 <= i < |objs| ==> Represents(Snapshot(r), objs[i], dicts[i])
    ensures res == CreateAll(dicts, nullId)
    decreases dicts, 0
  {
    var rules: seq<Constraint> := [];
    assert dicts[0..] == dicts;
    PrependNothing(CreateAll(dicts, nullId));
    for k := 0 to |objs|
      invariant |rules| == k
      invariant CreateAll(dicts, nullId) == Prepend(rules, CreateAll(dicts[k..], nullId))
    {
      var c := CreateConstraint(objs[k], nullId, dicts[k], r);
      assert dicts[k..][1..] == dicts[k + 1..];
      if c.Err? {
        return Err(c.error);
      }
      PrependStep(rules, c.value, CreateAll(dicts[k + 1..], nullId));
      rules := rules + [c.value];
    }
    assert dicts[|objs|..] == [] && rules + [] == rules;
    return Ok(rules);
  }

  lemma OneLess<T>(s: set<T>, x: T, y: T)
    requires x in s && x != y
    ensures s - {x} == {y} <==> s == {x, y}
  {
    if s - {x} == {y} {
      assert s == (s - {x}) + {x};
    }
  }

  lemma PrependNothing(rest: Result<seq<Constraint>>)
    ensures Prepend([], rest) == rest
  {
    if rest.Ok? {
      assert [] + rest.value == rest.value;
    }
  }

  ghost function Prepend(rules: seq<Constraint>, rest: Result<seq<Constraint>>): Result<seq<Constraint>> {
    match rest case Ok(more) => Ok(rules + more) case Err(e) => Err(e)
  }

  lemma PrependStep(rules: seq<Constraint>, c: Constraint, rest: Result<seq<Constraint>>)
    ensures Prepend(rules, Prepend([c], rest)) == Prepend(rules + [c], rest)
  {
    if rest.Ok? {
      assert rules + ([c] + rest.value) == (rules + [c]) + rest.value;
    }
  }

  // ---------- in-place normalization ----------

  predicate Truthy(item: Item) {
    match item
    case PlainItem(Flag(b)) => b
    case PlainItem(Null) => false
    case PlainItem(Num(n)) => n != 0
    case PlainItem(Str(s)) => s != ""
    case PlainItem(Meta(m)) => m != map[]
    case ListItem(objs) => objs != []
    case Built(rules) => rules != []
  }

  /** The update of one dictionary. */
  function Explicit(fields: map<string, Item>): map<string, Item> {
    if CONSTRAINT_ID in fields && fields[CONSTRAINT_ID] == PlainItem(Str(ROLE_ID))
       && !(OFF_LEDGER_SIGNATURE in fields && Truthy(fields[OFF_LEDGER_SIGNATURE]))
    then fields[OFF_LEDGER_SIGNATURE := PlainItem(Flag(false))]
    else fields
  }

  /** Every dictionary is as it was or updated once; updating again changes nothing, so this
      also covers dictionaries that are shared. */
  ghost predicate Between(h0: Heap, h: Heap) {
    h.Keys == h0.Keys && forall o :: o in h0 ==> h[o] == h0[o] || h[o] == Explicit(h0[o])
  }

  /** The dictionary of `c` and all dictionaries below it have been updated. */
  ghost predicate Done(h0: Heap, h: Heap, o: Obj, c: Constraint)
    requires Represents(h0, o, AsDict(c)) && h.Keys == h0.Keys
    decreases c
  {
    && h[o] == Explicit(h0[o])
    && ((c.And? || c.Or?) ==>
          forall i :: 0 <= i < |c.rules| ==>
            Below(h0, o, c, i) && Done(h0, h, h0[o][AUTH_CONSTRAINTS].objs[i], c.rules[i]))
  }

  /** The `i`th nested dictionary represents the `i`th nested constraint. */
  ghost predicate Below(h0: Heap, o: Obj, c: Constraint, i: nat)
    requires (c.And? || c.Or?) && i < |c.rules|
  {
    && o in h0 && AUTH_CONSTRAINTS in h0[o] && h0[o][AUTH_CONSTRAINTS].ListItem?
    && |h0[o][AUTH_CONSTRAINTS].objs| == |c.rules|
    && Represents(h0, h0[o][AUTH_CONSTRAINTS].objs[i], AsDict(c.rules[i]))
  }

  lemma NestedAreBelow(h0: Heap, o: Obj, c: Constraint)
    requires (c.And? || c.Or?) && Represents(h0, o, AsDict(c))
    ensures AUTH_CONSTRAINTS in h0[o] && h0[o][AUTH_CONSTRAINTS].ListItem?
    ensures |h0[o][AUTH_CONSTRAINTS].objs| == |c.rules|
    ensures forall i :: 0 <= i < |c.rules| ==> Below(h0, o, c, i)
  {
    KeysDiffer();
    var d := AsDict(c);
    assert RepresentsField(h0, h0[o][AUTH_CONSTRAINTS], d.fields[AUTH_CONSTRAINTS]);
    forall i | 0 <= i < |c.rules|
      ensures Below(h0, o, c, i)
    {
      AsDictsAt(c.rules, i);
    }
  }

  lemma ExplicitKeepsNested(h0: Heap, o: Obj, c: Constraint)
    requires Represents(h0, o, AsDict(c))
    ensures CONSTRAINT_ID in h0[o]
    ensures !c.RoleRule? ==> Explicit(h0[o]) == h0[o]
    ensures (c.RoleRule? || c.Forbidden?) ==> AUTH_CONSTRAINTS !in h0[o] && AUTH_CONSTRAINTS !in Explicit(h0[o])
  {
  }

  lemma {:induction false} DoneStays(h0: Heap, h: Heap, h': Heap, o: Obj, c: Constraint)
    requires Represents(h0, o, AsDict(c)) && h.Keys == h0.Keys && h'.Keys == h0.Keys
    requires Done(h0, h, o, c)
    requires forall x :: x in h0 && h[x] == Explicit(h0[x]) ==> h'[x] == Explicit(h0[x])
    ensures Done(h0, h', o, c)
    decreases c
  {
    if c.RoleRule? || c.Forbidden? {
    } else {
      forall i | 0 <= i < |c.rules|
        ensures Below(h0, o, c, i) && Done(h0, h', h0[o][AUTH_CONSTRAINTS].objs[i], c.rules[i])
      {
        DoneStays(h0, h, h', h0[o][AUTH_CONSTRAINTS].objs[i], c.rules[i]);
      }
    }
  }

  /** The update of one dictionary, which may already have been updated. */
  method MakeExplicit(o: Obj, ghost before: map<string, Item>)
    requires CONSTRAINT_ID in before
    requires o.fields == before || o.fields == Explicit(before)
    modifies o
    ensures o.fields == Explicit(before)
  {
    KeysDiffer();
    if o.fields[CONSTRAINT_ID] == PlainItem(Str(ROLE_ID))
       && !(OFF_LEDGER_SIGNATURE in o.fields && Truthy(o.fields[OFF_LEDGER_SIGNATURE])) {
      o.fields := o.fields[OFF_LEDGER_SIGNATURE := PlainItem(Flag(false))];
    }
  }

  /** `_set_off_ledger_to_constraint`: `h0` is the heap the normalization started from. */
  method SetOffLedger(o: Obj, ghost c: Constraint, ghost r: set<Obj>, ghost h0: Heap)
    requires h0.Keys == r && Represents(h0, o, AsDict(c)) && Between(h0, Snapshot(r))
    modifies r
    ensures Between(h0, Snapshot(r))
    ensures forall x :: x in r && old(x.fields) == Explicit(h0[x]) ==> x.fields == Explicit(h0[x])
    ensures Done(h0, Snapshot(r), o, c)
    decreases c, 1
  {
    ExplicitKeepsNested(h0, o, c);
    MakeExplicit(o, h0[o]);
    if AUTH_CONSTRAINTS in o.fields {
      NestedAreBelow(h0, o, c);
      SetOffLedgerBelow(o.fields[AUTH_CONSTRAINTS].objs, o, c, r, h0);
    }
  }

  method SetOffLedgerBelow(objs: seq<Obj>, ghost o: Obj, ghost c: Constraint, ghost r: set<Obj>, ghost h0: Heap)
    requires h0.Keys == r && Between(h0, Snapshot(r))
    requires (c.And? || c.Or?) && |objs| == |c.rules|
    requires forall i :: 0 <= i < |objs| ==> Below(h0, o, c, i) && objs[i] == h0[o][AUTH_CONSTRAINTS].objs[i]
    modifies r
    ensures Between(h0, Snapshot(r))
    ensures forall x :: x in r && old(x.fields) == Explicit(h0[x]) ==> x.fields == Explicit(h0[x])
    ensures forall i :: 0 <= i < |objs| ==> Below(h0, o, c, i) && Done(h0, Snapshot(r), objs[i], c.rules[i])
    decreases c, 0
  {
    for k := 0 to |objs|
      invariant Between(h0, Snapshot(r))
      invariant forall x :: x in r && old(x.fields) == Explicit(h0[x]) ==> x.fields == Explicit(h0[x])
      invariant forall i :: 0 <= i < k ==> Below(h0, o, c, i) && Done(h0, Snapshot(r), objs[i], c.rules[i])
    {
      ghost var h := Snapshot(r);
      SetOffLedger(objs[k], c.rules[k], r, h0);
      ghost var h' := Snapshot(r);
      forall i | 0 <= i < k
        ensures Below(h0, o, c, i) && Done(h0, h', objs[i], c.rules[i])
      {
        DoneStays(h0, h, h', objs[i], c.rules[i]);
      }
    }
  }

  lemma RoleIsNormalized(h0: Heap, h: Heap, o: Obj, c: Constraint)
    requires c.RoleRule? && Represents(h0, o, AsDict(c)) && o in h && h[o] == Explicit(h0[o])
    ensures Represents(h, o, AsDict(Normalized(c)))
  {
    KeysDiffer();
    var d, d' := RoleFields(c), RoleFields(Normalized(c));
    assert RepresentsField(h0, h0[o][CONSTRAINT_ID], d[CONSTRAINT_ID]);
    if c.offLedger.Some? {
      assert RepresentsField(h0, h0[o][OFF_LEDGER_SIGNATURE], d[OFF_LEDGER_SIGNATURE]);
    }
    forall k | k in d'
      ensures k in h[o] && RepresentsField(h, h[o][k], d'[k])
    {
      if k in d {
        assert RepresentsField(h0, h0[o][k], d[k]);
      }
    }
  }

  lemma {:induction false} DoneIsNormalized(h0: Heap, h: Heap, o: Obj, c: Constraint)
    requires Represents(h0, o, AsDict(c)) && h.Keys == h0.Keys && Done(h0, h, o, c)
    ensures Represents(h, o, AsDict(Normalized(c)))
    decreases c
  {
    if c.RoleRule? {
      RoleIsNormalized(h0, h, o, c);
    } else {
      ExplicitKeepsNested(h0, o, c);
      KeysDiffer();
      var d, d' := AsDict(c), AsDict(Normalized(c));
      assert RepresentsField(h0, h0[o][CONSTRAINT_ID], d.fields[CONSTRAINT_ID]);
      if !c.Forbidden? {
        NestedAreBelow(h0, o, c);
        var rules, objs := Normalized(c).rules, h0[o][AUTH_CONSTRAINTS].objs;
        forall i | 0 <= i < |c.rules|
          ensures Represents(h, objs[i], AsDicts(rules)[i])
        {
          assert Below(h0, o, c, i);
          DoneIsNormalized(h0, h, objs[i], c.rules[i]);
          AsDictsAt(rules, i);
        }
        assert RepresentsField(h, h[o][AUTH_CONSTRAINTS], d'.fields[AUTH_CONSTRAINTS]);
      }
    }
  }

  // ---------- what is stored, path by path ----------

  /** The dictionary at the end of a path of positions. */
  ghost function ObjAt(h: Heap, o: Obj, path: seq<nat>): Option<Obj>
    decreases path
  {
    if o !in h then None
    else if path == [] then Some(o)
    else if AUTH_CONSTRAINTS in h[o] && h[o][AUTH_CONSTRAINTS].ListItem? && path[0] < |h[o][AUTH_CONSTRAINTS].objs|
    then ObjAt(h, h[o][AUTH_CONSTRAINTS].objs[path[0]], path[1..])
    else None
  }

  /** A role dictionary holds the fields of the role and always an off-ledger flag; the others
      hold what they are and what they nest. */
  ghost predicate StoredAs(fields: map<string, Item>, n: Constraint) {
    match n
    case RoleRule(role, sigCount, needToBeOwner, offLedger, metadata) =>
      && fields.Keys == {"constraint_id", "role", "sig_count", "need_to_be_owner", "metadata", "off_ledger_signature"}
      && fields["constraint_id"] == PlainItem(Str("ROLE"))
      && fields["role"] == PlainItem(if role.Some? then Str(role.value) else Null)
      && fields["sig_count"] == PlainItem(Num(sigCount))
      && fields["need_to_be_owner"] == PlainItem(Flag(needToBeOwner))
      && fields["metadata"] == PlainItem(Meta(metadata))
      && fields["off_ledger_signature"] == PlainItem(Flag(offLedger.Some? && offLedger.value))
    case And(rules) => StoredList(fields, "AND", |rules|)
    case Or(rules) => StoredList(fields, "OR", |rules|)
    case Forbidden => fields.Keys == {"constraint_id"} && fields["constraint_id"] == PlainItem(Str("FORBIDDEN"))
  }

  ghost predicate StoredList(fields: map<string, Item>, id: string, n: nat) {
    && fields.Keys == {"constraint_id", "auth_constraints"}
    && fields["constraint_id"] == PlainItem(Str(id))
    && fields["auth_constraints"].ListItem? && |fields["auth_constraints"].objs| == n
  }

  /** The dictionaries and the constraints nested at this path are the same ones. */
  ghost predicate StoredAt(h: Heap, o: Obj, c: Constraint, path: seq<nat>) {
    match NodeAt(c, path)
    case None => ObjAt(h, o, path) == None
    case Some(n) =>
      var x := ObjAt(h, o, path);
      x.Some? && x.value in h && StoredAs(h[x.value], n)
  }

  lemma {:induction false} RepresentedAt(h: Heap, o: Obj, c: Constraint, path: seq<nat>)
    requires Represents(h, o, AsDict(c))
    ensures NodeAt(c, path).None? ==> ObjAt(h, o, path) == None
    ensures NodeAt(c, path).Some? ==>
              ObjAt(h, o, path).Some? && Represents(h, ObjAt(h, o, path).value, AsDict(NodeAt(c, path).value))
    decreases path
  {
    if path == [] {
    } else if c.And? || c.Or? {
      NestedAreBelow(h, o, c);
      if path[0] < |c.rules| {
        assert Below(h, o, c, path[0]);
        RepresentedAt(h, h[o][AUTH_CONSTRAINTS].objs[path[0]], c.rules[path[0]], path[1..]);
      }
    } else {
      ExplicitKeepsNested(h, o, c);
    }
  }

  lemma RoleIsStored(h: Heap, o: Obj, c: Constraint)
    requires c.RoleRule? && c.offLedger.Some? && Represents(h, o, AsDict(c))
    ensures StoredAs(h[o], c)
  {
    KeysDiffer();
    var d := RoleFields(c);
    assert d.Keys == {CONSTRAINT_ID, ROLE, SIG_COUNT, NEED_TO_BE_OWNER, METADATA, OFF_LEDGER_SIGNATURE};
    assert forall k :: k in d ==> RepresentsField(h, h[o][k], d[k]);
  }

  lemma ListIsStored(h: Heap, o: Obj, c: Constraint)
    requires !c.RoleRule? && Represents(h, o, AsDict(c))
    ensures StoredAs(h[o], c)
  {
    KeysDiffer();
    var d := AsDict(c).fields;
    assert RepresentsField(h, h[o][CONSTRAINT_ID], d[CONSTRAINT_ID]);
    if !c.Forbidden? {
      NestedAreBelow(h, o, c);
    }
  }

  /** After the normalization every dictionary, at every depth, is that of the constraint it was
      built from, except that each role dictionary has an off-ledger flag. */
  lemma DoneIsStored(h0: Heap, h: Heap, o: Obj, c: Constraint, path: seq<nat>)
    requires Represents(h0, o, AsDict(c)) && h.Keys == h0.Keys && Done(h0, h, o, c)
    ensures StoredAt(h, o, c, path)
  {
    DoneIsNormalized(h0, h, o, c);
    RepresentedAt(h, o, Normalized(c), path);
    NormalizedAt(c, path);
    if NodeAt(c, path).Some? {
      var n, n', x := NodeAt(c, path).value, NodeAt(Normalized(c), path).value, ObjAt(h, o, path).value;
      if n.RoleRule? {
        RoleIsStored(h, x, n');
      } else {
        ListIsStored(h, x, n');
      }
    }
  }

  /** What the 1.9.1 handler stores for a rule: the dictionary of the normalized constraint. */
  method UpdateAuthConstraint(c: Constraint) returns (o: Obj, ghost r: set<Obj>)
    ensures fresh(r)
    ensures Represents(Snapshot(r), o, AsDict(Normalized(c)))
    ensures forall path :: StoredAt(Snapshot(r), o, c, path)
  {
    o, r := BuildDict(c);
    ghost var h0 := Snapshot(r);
    SetOffLedger(o, c, r, h0);
    DoneIsNormalized(h0, Snapshot(r), o, c);
    forall path
      ensures StoredAt(Snapshot(r), o, c, path)
    {
      DoneIsStored(h0, Snapshot(r), o, c, path);
    }
  }
}
