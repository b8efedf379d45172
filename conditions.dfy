/** The status conditions of a NodePool: a list of typed entries, looked up and set by type as
    meta.FindStatusCondition and SetStatusCondition do. */
module Conditions {
  import opened Wrappers

  datatype ConditionStatus = ConditionTrue | ConditionFalse | ConditionUnknown

  /** One status condition (the transition timestamp is not modelled). */
  datatype Condition = Condition(ctype: string, status: ConditionStatus, reason: string, message: string)

  /** The NodePool condition types. */
  const Failed: string := "Failed"
  const Unprovisioned: string := "Unprovisioned"
  const Provisioned: string := "Provisioned"
  const Updating: string := "Updating"

  /** The NodePool condition reasons. */
  const ReasonFailed: string := "Failed"
  const ReasonInProgress: string := "InProgress"

  /** The position of the first entry of type `t`. */
  function IndexOfType(cs: seq<Condition>, t: string): (r: Option<nat>)
    ensures r.None? <==> forall k :: 0 <= k < |cs| ==> cs[k].ctype != t
    ensures r.Some? ==> r.value < |cs| && cs[r.value].ctype == t
                        && forall j :: 0 <= j < r.value ==> cs[j].ctype != t
    decreases |cs|
  {
    if cs == [] then None
    else if cs[0].ctype == t then Some(0)
    else
      assert forall k :: 0 <= k < |cs[1..]| ==> cs[1..][k] == cs[k + 1];
      match IndexOfType(cs[1..], t)
      case None => None
      case Some(k) => Some(k + 1)
  }

  /** meta.FindStatusCondition: the first entry of type `t`, if any. */
  function FindCondition(cs: seq<Condition>, t: string): (r: Option<Condition>)
    ensures r.None? <==> forall k :: 0 <= k < |cs| ==> cs[k].ctype != t
    ensures r.Some? ==> r.value in cs && r.value.ctype == t
    ensures r.Some? ==> exists k :: 0 <= k < |cs| && r.value == cs[k]
                                    && forall j :: 0 <= j < k ==> cs[j].ctype != t
  {
    match IndexOfType(cs, t)
    case None => None
    case Some(k) => Some(cs[k])
  }

  /** A condition of type `t` is present and true. */
  predicate IsTrue(cs: seq<Condition>, t: string) {
    FindCondition(cs, t).Some? && FindCondition(cs, t).value.status == ConditionTrue
  }

  /** At most one entry per type: the shape the condition list keeps. */
  predicate UniqueTypes(cs: seq<Condition>) {
    forall i, j :: 0 <= i < j < |cs| ==> cs[i].ctype != cs[j].ctype
  }

  /** SetStatusCondition: overwrite the entry of that type where it stands, or append one. */
  function SetCondition(cs: seq<Condition>, t: string, status: ConditionStatus, reason: string, message: string): (r: seq<Condition>)
    ensures |r| == |cs| || |r| == |cs| + 1
    ensures forall k :: 0 <= k < |cs| && cs[k].ctype != t ==> r[k] == cs[k]
    ensures forall k :: 0 <= k < |r| ==> r[k].ctype == t || (k < |cs| && r[k] == cs[k])
  {
    var c := Condition(t, status, reason, message);
    match IndexOfType(cs, t)
    case None => cs + [c]
    case Some(k) => cs[k := c]
  }

  /** Find after set returns the entry just set. */
  lemma SetThenFind(cs: seq<Condition>, t: string, status: ConditionStatus, reason: string, message: string)
    ensures FindCondition(SetCondition(cs, t, status, reason, message), t) == Some(Condition(t, status, reason, message))
  {
    var c := Condition(t, status, reason, message);
    var r := SetCondition(cs, t, status, reason, message);
    match IndexOfType(cs, t)
    case None =>
      assert r == cs + [c];
      assert forall j :: 0 <= j < |cs| ==> r[j] == cs[j];
      assert r[|cs|].ctype == t;
    case Some(k) =>
      assert r == cs[k := c];
      assert r[k].ctype == t;
  }

  /** Setting one type leaves what is found for every other type as it was. */
  lemma SetKeepsOthers(cs: seq<Condition>, t: string, status: ConditionStatus, reason: string, message: string, u: string)
    requires u != t
    ensures FindCondition(SetCondition(cs, t, status, reason, message), u) == FindCondition(cs, u)
  {
    var r := SetCondition(cs, t, status, reason, message);
    match IndexOfType(cs, u)
    case None =>
      assert forall k :: 0 <= k < |r| ==> r[k].ctype != u;
    case Some(k) =>
      assert r[k] == cs[k];
      assert IndexOfType(r, u) == Some(k);
  }

  /** Set-by-type leaves exactly one entry of that type, with the given status, and keeps the list
      free of duplicate types. */
  lemma SetLeavesExactlyOne(cs: seq<Condition>, t: string, status: ConditionStatus, reason: string, message: string)
    requires UniqueTypes(cs)
    ensures UniqueTypes(SetCondition(cs, t, status, reason, message))
    ensures exists k :: 0 <= k < |SetCondition(cs, t, status, reason, message)|
                        && SetCondition(cs, t, status, reason, message)[k] == Condition(t, status, reason, message)
                        && forall j :: 0 <= j < |SetCondition(cs, t, status, reason, message)| && j != k
                             ==> SetCondition(cs, t, status, reason, message)[j].ctype != t
  {
    var r := SetCondition(cs, t, status, reason, message);
    match IndexOfType(cs, t)
    case None =>
      assert r[|cs|] == Condition(t, status, reason, message);
    case Some(k) =>
      assert r[k] == Condition(t, status, reason, message);
  }

  /** With one entry per type, "the entry found is true" is "some entry of that type is true". */
  lemma IsTrueWithUniqueTypes(cs: seq<Condition>, t: string)
    requires UniqueTypes(cs)
    ensures IsTrue(cs, t) <==> exists k :: 0 <= k < |cs| && cs[k].ctype == t && cs[k].status == ConditionTrue
  {
    if k :| 0 <= k < |cs| && cs[k].ctype == t && cs[k].status == ConditionTrue {
      var i := IndexOfType(cs, t).value;
      assert i == k;
    }
  }
}
