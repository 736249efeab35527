/**
 Authorization action ids: five fields joined by `--`, split again to be matched against the
 keys of the authorization map.
 */
module AuthActions {
  import opened Basics

  const DELIMITER := "--"
  const ADD_PREFIX := "ADD"
  const EDIT_PREFIX := "EDIT"

  // ---------- join and split on strings ----------

  function Join(parts: seq<string>): string
    requires parts != []
  {
    if |parts| == 1 then parts[0] else parts[0] + DELIMITER + Join(parts[1..])
  }

  predicate DelimiterAt(s: string, k: nat) {
    k + 1 < |s| && s[k] == '-' && s[k + 1] == '-'
  }

  /** The first delimiter, or the length of the string. */
  function FindDelimiter(s: string, from: nat): (k: nat)
    requires from <= |s|
    ensures from <= k <= |s|
    ensures k < |s| ==> DelimiterAt(s, k)
    ensures forall j :: from <= j < k ==> !DelimiterAt(s, j)
    decreases |s| - from
  {
    if from == |s| || DelimiterAt(s, from) then from else FindDelimiter(s, from + 1)
  }

  /** `s.split("--")`: leftmost delimiters, not overlapping. */
  function Split(s: string): (parts: seq<string>)
    ensures parts != []
    decreases |s|
  {
    var k := FindDelimiter(s, 0);
    if k == |s| then [s] else [s[..k]] + Split(s[k + 2..])
  }

  predicate NoDelimiter(s: string) {
    forall k: nat :: k < |s| ==> !DelimiterAt(s, k)
  }

  predicate EndsInDash(s: string) {
    s != [] && s[|s| - 1] == '-'
  }

  /** No part holds a delimiter, and none but the last ends in half of one. */
  predicate Separable(parts: seq<string>) {
    && (forall i :: 0 <= i < |parts| ==> NoDelimiter(parts[i]))
    && (forall i :: 0 <= i < |parts| - 1 ==> !EndsInDash(parts[i]))
  }

  lemma {:induction false} SplitPartsHoldNoDelimiter(s: string)
    ensures forall i :: 0 <= i < |Split(s)| ==> NoDelimiter(Split(s)[i])
    decreases |s|
  {
    var k := FindDelimiter(s, 0);
    if k < |s| {
      SplitPartsHoldNoDelimiter(s[k + 2..]);
      var first := s[..k];
      assert forall j: nat :: j < k ==> DelimiterAt(first, j) ==> DelimiterAt(s, j);
    } else {
      assert forall j: nat :: j < |s| ==> !DelimiterAt(s, j);
    }
  }

  /** The first delimiter of `c--rest` is the one after `c`, or lies within `c-`. */
  lemma FirstDelimiterAfter(c: string, rest: string)
    ensures var k := FindDelimiter(c + DELIMITER + rest, 0);
            && k <= |c|
            && (k == |c| <==> NoDelimiter(c) && !EndsInDash(c))
  {
    var s := c + DELIMITER + rest;
    var k := FindDelimiter(s, 0);
    assert DelimiterAt(s, |c|);
    forall j: nat | j < |c|
      ensures DelimiterAt(s, j) <==> DelimiterAt(c, j) || (j == |c| - 1 && EndsInDash(c))
    {
    }
    if EndsInDash(c) {
      assert DelimiterAt(s, |c| - 1);
    }
    if !NoDelimiter(c) {
      var j: nat :| j < |c| && DelimiterAt(c, j);
      assert DelimiterAt(s, j);
    }
  }

  /** Splitting undoes joining exactly for separable parts. */
  lemma {:induction false} SplitUndoesJoinIff(parts: seq<string>)
    requires parts != []
    ensures Split(Join(parts)) == parts <==> Separable(parts)
    decreases |parts|
  {
    if |parts| == 1 {
      if NoDelimiter(parts[0]) {
        assert !DelimiterAt(parts[0], FindDelimiter(parts[0], 0));
      } else {
        SplitPartsHoldNoDelimiter(parts[0]);
      }
    } else {
      var c, rest := parts[0], parts[1..];
      var s := Join(parts);
      var k := FindDelimiter(s, 0);
      FirstDelimiterAfter(c, Join(rest));
      SplitUndoesJoinIff(rest);
      SeparableStep(parts);
      assert k < |s|;
      assert Split(s) == [s[..k]] + Split(s[k + 2..]);
      if k == |c| {
        assert s[..k] == c && s[k + 2..] == Join(rest);
        assert parts == [c] + rest;
      } else {
        assert |s[..k]| < |c|;
      }
    }
  }

  lemma SeparableStep(parts: seq<string>)
    requires |parts| > 1
    ensures Separable(parts) <==> NoDelimiter(parts[0]) && !EndsInDash(parts[0]) && Separable(parts[1..])
  {
  }

  /** Joining always undoes splitting, and splitting gives separable parts. */
  lemma {:induction false} JoinUndoesSplit(s: string)
    ensures Join(Split(s)) == s && Separable(Split(s))
    decreases |s|
  {
    SplitPartsHoldNoDelimiter(s);
    var k := FindDelimiter(s, 0);
    if k == |s| {
    } else {
      var first, rest := s[..k], s[k + 2..];
      JoinUndoesSplit(rest);
      assert Split(s) == [first] + Split(rest) && Split(s)[1..] == Split(rest);
      assert s == first + DELIMITER + rest;
      if EndsInDash(first) {
        assert DelimiterAt(s, k - 1);
      }
      SeparableStep(Split(s));
    }
  }

  /** A first part without traces of a delimiter is split off as it is. */
  lemma SplitHead(c: string, rest: string)
    requires NoDelimiter(c) && !EndsInDash(c)
    ensures Split(c + DELIMITER + rest) == [c] + Split(rest)
  {
    var s := c + DELIMITER + rest;
    FirstDelimiterAfter(c, rest);
    assert s[..|c|] == c && s[|c| + 2..] == rest;
  }

  // ---------- action ids ----------

  datatype ActionDef = ActionDef(txnType: string, prefix: string, field: string, oldValue: string, newValue: string)
  {
    function Fields(): seq<string> {
      [txnType, prefix, field, oldValue, newValue]
    }
  }

  function AddAction(txnType: string, field: string, value: string): ActionDef {
    ActionDef(txnType, ADD_PREFIX, field, "*", value)
  }

  function EditAction(txnType: string, field: string, oldValue: string, newValue: string): ActionDef {
    ActionDef(txnType, EDIT_PREFIX, field, oldValue, newValue)
  }

  function Compile(a: ActionDef): string {
    Join(a.Fields())
  }

  lemma JoinStep(c: string, parts: seq<string>)
    requires parts != []
    ensures Join([c] + parts) == c + DELIMITER + Join(parts)
  {
  }

  lemma JoinOfFive(a: ActionDef)
    ensures Compile(a) == a.txnType + DELIMITER + (a.prefix + DELIMITER + (a.field + DELIMITER
                                                   + (a.oldValue + DELIMITER + a.newValue)))
  {
    JoinStep(a.oldValue, [a.newValue]);
    JoinStep(a.field, [a.oldValue] + [a.newValue]);
    JoinStep(a.prefix, [a.field] + ([a.oldValue] + [a.newValue]));
    JoinStep(a.txnType, [a.prefix] + ([a.field] + ([a.oldValue] + [a.newValue])));
    assert a.Fields() == [a.txnType] + ([a.prefix] + ([a.field] + ([a.oldValue] + [a.newValue])));
  }

  /** The ids of the two kinds of actions, as they are written into rules and state keys. */
  lemma ActionIds(txnType: string, field: string, oldValue: string, newValue: string)
    ensures Compile(AddAction(txnType, field, newValue)) == txnType + "--ADD--" + field + "--*--" + newValue
    ensures Compile(EditAction(txnType, field, oldValue, newValue)) ==
            txnType + "--EDIT--" + field + "--" + oldValue + "--" + newValue
  {
    JoinOfFive(AddAction(txnType, field, newValue));
    JoinOfFive(EditAction(txnType, field, oldValue, newValue));
    assert DELIMITER + (ADD_PREFIX + DELIMITER) == "--ADD--" && DELIMITER + (EDIT_PREFIX + DELIMITER) == "--EDIT--";
    assert DELIMITER + ("*" + DELIMITER) == "--*--";
    assert txnType + "--ADD--" + field + "--*--" + newValue
           == txnType + DELIMITER + (ADD_PREFIX + DELIMITER + (field + DELIMITER + ("*" + DELIMITER + newValue)));
    assert txnType + "--EDIT--" + field + "--" + oldValue + "--" + newValue
           == txnType + DELIMITER + (EDIT_PREFIX + DELIMITER + (field + DELIMITER + (oldValue + DELIMITER + newValue)));
  }

  /** Anything but five parts raises a TypeError. */
  function SplitActionId(id: string): Option<ActionDef> {
    var p := Split(id);
    if |p| == 5 then Some(ActionDef(p[0], p[1], p[2], p[3], p[4])) else None
  }

  /** An action id can be read back exactly when its fields are separable. */
  lemma SplitUndoesCompileIff(a: ActionDef)
    ensures SplitActionId(Compile(a)) == Some(a) <==> Separable(a.Fields())
  {
    SplitUndoesJoinIff(a.Fields());
    var p := Split(Compile(a));
    if |p| == 5 {
      assert p == [p[0], p[1], p[2], p[3], p[4]];
    }
  }

  /** Whatever an id is read as is separable and has that id. */
  lemma CompileUndoesSplit(id: string)
    requires SplitActionId(id).Some?
    ensures var a := SplitActionId(id).value; Separable(a.Fields()) && Compile(a) == id
  {
    JoinUndoesSplit(id);
    var p := Split(id);
    assert SplitActionId(id).value.Fields() == p;
  }

  // ---------- matching ----------

  /** Field by field; `*` in the last three fields of the key matches anything. */
  predicate Matches(key: ActionDef, request: ActionDef) {
    && request.prefix == key.prefix
    && request.txnType == key.txnType
    && (request.field == key.field || key.field == "*")
    && (request.oldValue == key.oldValue || key.oldValue == "*")
    && (request.newValue == key.newValue || key.newValue == "*")
  }

  /** A key matches exactly the requests got from it by putting strings for its wildcards, of
      which only the last three fields can be. */
  lemma MatchIsSubstitution(key: ActionDef, request: ActionDef)
    ensures Matches(key, request) <==>
              exists f: string, o: string, n: string {:trigger ActionDef(key.txnType, key.prefix, f, o, n)} ::
                && request == ActionDef(key.txnType, key.prefix, f, o, n)
                && (key.field == "*" || f == key.field)
                && (key.oldValue == "*" || o == key.oldValue)
                && (key.newValue == "*" || n == key.newValue)
  {
    if Matches(key, request) {
      assert request == ActionDef(key.txnType, key.prefix, request.field, request.oldValue, request.newValue);
    }
  }

  /** The value of a field under a wildcard does not matter. */
  lemma WildcardIgnoresField(key: ActionDef, request: ActionDef, other: string)
    ensures key.field == "*" ==> (Matches(key, request) <==> Matches(key, request.(field := other)))
    ensures key.oldValue == "*" ==> (Matches(key, request) <==> Matches(key, request.(oldValue := other)))
    ensures key.newValue == "*" ==> (Matches(key, request) <==> Matches(key, request.(newValue := other)))
  {
  }

  /** A key without wildcards matches only itself. */
  lemma ExactKeyMatchesItself(key: ActionDef, request: ActionDef)
    requires key.field != "*" && key.oldValue != "*" && key.newValue != "*"
    ensures Matches(key, request) <==> request == key
  {
  }

  /** `is_accepted_action_id` on the strings; none if an id is malformed. */
  function IsAcceptedActionId(fromAuthMap: string, fromReq: string): Option<bool> {
    var am := SplitActionId(fromAuthMap);
    var r := SplitActionId(fromReq);
    if am.None? || r.None? then None
    else if r.value.prefix != am.value.prefix then Some(false)
    else if r.value.txnType != am.value.txnType then Some(false)
    else if r.value.field != am.value.field && am.value.field != "*" then Some(false)
    else if r.value.oldValue != am.value.oldValue && am.value.oldValue != "*" then Some(false)
    else if r.value.newValue != am.value.newValue && am.value.newValue != "*" then Some(false)
    else Some(true)
  }

  lemma StringMatchIsFieldMatch(key: ActionDef, request: ActionDef)
    requires Separable(key.Fields()) && Separable(request.Fields())
    ensures IsAcceptedActionId(Compile(key), Compile(request)) == Some(Matches(key, request))
  {
    SplitUndoesCompileIff(key);
    SplitUndoesCompileIff(request);
  }

  // ---------- the key search ----------

  datatype Search = Found(index: nat) | NotFound | Malformed

  ghost predicate AllSeparable(keys: seq<ActionDef>) {
    forall i :: 0 <= i < |keys| ==> Separable(keys[i].Fields())
  }

  /** The index of the first key that matches. */
  function FirstMatch(keys: seq<ActionDef>, request: ActionDef, from: nat): (r: Option<nat>)
    requires from <= |keys|
    ensures r.Some? ==> from <= r.value < |keys| && Matches(keys[r.value], request)
    ensures forall i :: from <= i < (if r.Some? then r.value else |keys|) ==> !Matches(keys[i], request)
    decreases |keys| - from
  {
    if from == |keys| then None
    else if Matches(keys[from], request) then Some(from)
    else FirstMatch(keys, request, from + 1)
  }

  /** The key for an action id, by fields: the first that matches what the id is read as; a
      malformed id shows at the first comparison. */
  function KeyFor(keys: seq<ActionDef>, actionId: string): (r: Search)
    ensures r.Found? ==> r.index < |keys|
  {
    match SplitActionId(actionId)
    case None => if keys == [] then NotFound else Malformed
    case Some(a) =>
      var i := FirstMatch(keys, a, 0);
      if i.Some? then Found(i.value) else NotFound
  }

  /** The loop over the keys of the authorization map, in their order.  On separable keys it
      ends at the key for the id, whatever the id. */
  method FindAuthConstraintKey(ids: seq<string>, ghost keys: seq<ActionDef>, actionId: string) returns (r: Search)
    requires |ids| == |keys| && forall i :: 0 <= i < |ids| ==> ids[i] == Compile(keys[i])
    ensures r.Found? ==> r.index < |keys|
    ensures AllSeparable(keys) ==> r == KeyFor(keys, actionId)
  {
    ghost var a := SplitActionId(actionId);
    for k := 0 to |ids|
      invariant AllSeparable(keys) && k > 0 ==> a.Some? && forall i :: 0 <= i < k ==> !Matches(keys[i], a.value)
    {
      if AllSeparable(keys) {
        SplitUndoesCompileIff(keys[k]);
      }
      var accepted := IsAcceptedActionId(ids[k], actionId);
      if accepted.None? {
        return Malformed;
      }
      if accepted.value {
        return Found(k);
      }
    }
    return NotFound;
  }

  /** The map has a rule for the action. */
  ghost predicate HasRule(keys: seq<ActionDef>, action: ActionDef) {
    KeyFor(keys, Compile(action)).Found?
  }
}
