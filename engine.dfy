/** The operations of the hardware-manager service as functions of the state they read: the
    allocation step, the full-allocation check, the admission check and the release helpers.
    The class in module HwMgr runs them as Go does and is proved equal to these functions. */
module Engine {
  import opened Wrappers
  import opened Errors
  import opened Inventory

  /** One group of a node pool request: it wants `size` nodes of profile `hwProfile`. */
  datatype NodeGroup = NodeGroup(name: string, hwProfile: string, size: int)

  /** The part of a NodePool's spec the service reads. */
  datatype NodePoolSpec = NodePoolSpec(cloudID: string, groups: seq<NodeGroup>)

  /** A Node object in the plugin's namespace. */
  datatype Node = Node(name: string, nodePool: string, groupName: string, hwProfile: string)

  /** What the service can observe of the cluster: how many API calls were made so far, the two
      documents of the config map (`profiles` is None when the config map cannot be read or its
      "hwprofiles" key does not parse; `record` is None when the "allocated" key is missing or
      does not parse) and the Node objects by name. */
  datatype Store = Store(calls: nat, profiles: Option<Catalog>, record: Option<Record>, nodes: map<string, Node>)

  /** API call number `c` fails iff it is in `failAt`. */
  predicate CallOk(failAt: set<nat>, c: nat) { c !in failAt }

  /** GetCurrentResources: one API call; a missing or unparsable "allocated" key reads as an
      empty record. */
  function Resources(failAt: set<nat>, st: Store): (r: Option<(Catalog, Record)>)
    ensures r.Some? <==> CallOk(failAt, st.calls) && st.profiles.Some?
    ensures r.Some? ==> r.value.0 == st.profiles.value
    ensures r.Some? && st.record.None? ==> r.value.1 == []
    ensures r.Some? && st.record.Some? ==> r.value.1 == st.record.value
  {
    if CallOk(failAt, st.calls) && st.profiles.Some? then Some((st.profiles.value, st.record.GetOr([])))
    else None
  }

  /** The index of the first cloud with this ID. */
  function FindCloud(rec: Record, id: string): (r: Option<nat>)
    ensures r.Some? ==> r.value < |rec| && rec[r.value].cloudID == id
                        && forall j :: 0 <= j < r.value ==> rec[j].cloudID != id
    ensures r.None? ==> forall j :: 0 <= j < |rec| ==> rec[j].cloudID != id
  {
    if rec == [] then None
    else if rec[0].cloudID == id then Some(0)
    else match FindCloud(rec[1..], id)
      case None => None
      case Some(k) => Some(k + 1)
  }

  /** The record with an entry for `id` (an empty one appended when none exists) and its index. */
  function WithCloud(rec: Record, id: string): (r: (Record, nat))
    ensures r.1 < |r.0| && r.0[r.1].cloudID == id && FindCloud(r.0, id) == Some(r.1)
    ensures r.0 == rec || r.0 == rec + [AllocatedCloud(id, map[])]
    ensures r.0 != rec <==> FindCloud(rec, id).None?
  {
    match FindCloud(rec, id)
    case Some(i) => (rec, i)
    case None =>
      var r := rec + [AllocatedCloud(id, map[])];
      FindCloudAfterAppend(rec, id, AllocatedCloud(id, map[]));
      (r, |rec|)
  }

  lemma {:induction false} FindCloudAfterAppend(rec: Record, id: string, c: AllocatedCloud)
    requires FindCloud(rec, id).None? && c.cloudID == id
    ensures FindCloud(rec + [c], id) == Some(|rec|)
  {
    if rec != [] {
      assert (rec + [c])[1..] == rec[1..] + [c];
      FindCloudAfterAppend(rec[1..], id, c);
    }
  }

  /** How many nodes group `g` still needs in cloud `i`. */
  function Remaining(rec: Record, i: nat, g: NodeGroup): int
    requires i < |rec|
  {
    g.size - |GroupNodes(rec[i], g.name)|
  }

  /** Appending a node to a group lowers that group's remaining count by one and leaves every
      other group's count alone. */
  lemma RemainingAfterAppend(rec: Record, i: nat, g: NodeGroup, n: string, h: NodeGroup)
    requires i < |rec|
    ensures Remaining(AppendNode(rec, i, g.name, n), i, g) == Remaining(rec, i, g) - 1
    ensures h.name != g.name ==> Remaining(AppendNode(rec, i, g.name, n), i, h) == Remaining(rec, i, h)
  {
  }

  /** Appends node `n` to group `group` of cloud `i`. */
  function AppendNode(rec: Record, i: nat, group: string, n: string): (r: Record)
    requires i < |rec|
    ensures |r| == |rec|
    ensures forall j :: 0 <= j < |rec| && j != i ==> r[j] == rec[j]
    ensures r[i].cloudID == rec[i].cloudID
    ensures GroupNodes(r[i], group) == GroupNodes(rec[i], group) + [n]
    ensures forall h :: h != group ==> GroupNodes(r[i], h) == GroupNodes(rec[i], h)
    ensures forall h :: h != group ==> (h in r[i].nodegroups <==> h in rec[i].nodegroups)
  {
    rec[i := AllocatedCloud(rec[i].cloudID, rec[i].nodegroups[group := GroupNodes(rec[i], group) + [n]])]
  }

  /** Appending one node adds exactly that node to the nodes in use. */
  lemma AppendNodeInUse(rec: Record, i: nat, group: string, n: string)
    requires i < |rec|
    ensures InUse(AppendNode(rec, i, group, n)) == InUse(rec) + {n}
  {
    var r := AppendNode(rec, i, group, n);
    forall m | m in InUse(r) ensures m in InUse(rec) + {n} {
      var j, g :| 0 <= j < |r| && g in r[j].nodegroups && m in r[j].nodegroups[g];
      if j == i && m != n {
        if g == group {
          assert m in GroupNodes(rec[i], group);
        } else {
          assert m in GroupNodes(rec[i], g);
        }
      }
    }
    forall m | m in InUse(rec) + {n} ensures m in InUse(r) {
      if m == n {
        assert m in r[i].nodegroups[group];
      } else {
        var j, g :| 0 <= j < |rec| && g in rec[j].nodegroups && m in rec[j].nodegroups[g];
        if j == i {
          assert m in GroupNodes(r[i], g);
        } else {
          assert r[j] == rec[j];
        }
      }
    }
  }

  /** Appending a node that is in use nowhere keeps every node in at most one place. */
  lemma AppendNodeNoDouble(rec: Record, i: nat, group: string, n: string)
    requires i < |rec| && NoDoubleAllocation(rec) && n !in InUse(rec)
    ensures NoDoubleAllocation(AppendNode(rec, i, group, n))
  {
    var r := AppendNode(rec, i, group, n);
    var old_len := |GroupNodes(rec[i], group)|;
    // Every position of `r` other than the new one holds what the same position of `rec` holds.
    assert Same: forall j, h, x :: 0 <= j < |r| && h in r[j].nodegroups && 0 <= x < |r[j].nodegroups[h]|
                   && !(j == i && h == group && x == old_len)
                   ==> h in rec[j].nodegroups && x < |rec[j].nodegroups[h]| && r[j].nodegroups[h][x] == rec[j].nodegroups[h][x] by {
      forall j, h, x | 0 <= j < |r| && h in r[j].nodegroups && 0 <= x < |r[j].nodegroups[h]|
                   && !(j == i && h == group && x == old_len)
        ensures h in rec[j].nodegroups && x < |rec[j].nodegroups[h]| && r[j].nodegroups[h][x] == rec[j].nodegroups[h][x]
      {
        if j == i {
          if h == group {
            assert r[j].nodegroups[h] == GroupNodes(rec[i], group) + [n];
            assert GroupNodes(rec[i], group) != [];
          } else {
            assert GroupNodes(r[i], h) == GroupNodes(rec[i], h);
          }
        }
      }
    }
    forall j1, h1, x1, j2, h2, x2 |
      0 <= j1 < |r| && h1 in r[j1].nodegroups && 0 <= x1 < |r[j1].nodegroups[h1]| &&
      0 <= j2 < |r| && h2 in r[j2].nodegroups && 0 <= x2 < |r[j2].nodegroups[h2]| &&
      r[j1].nodegroups[h1][x1] == r[j2].nodegroups[h2][x2]
      ensures j1 == j2 && h1 == h2 && x1 == x2
    {
      var new1 := j1 == i && h1 == group && x1 == old_len;
      var new2 := j2 == i && h2 == group && x2 == old_len;
      assert r[i].nodegroups[group][old_len] == n;
      if !new1 && !new2 {
        assert rec[j1].nodegroups[h1][x1] == rec[j2].nodegroups[h2][x2];
      } else if new1 && !new2 {
        InUseHas(rec, j2, h2, x2);
      } else if !new1 && new2 {
        InUseHas(rec, j1, h1, x1);
      }
    }
  }

  /** A node chosen for a group: its name, the group and the group's profile. */
  datatype Pick = Pick(node: string, group: string, profile: string)

  /** The nodes one AllocateNode call chooses, in order, and the profile of the group it stops
      at for want of free nodes, if any. */
  datatype Plan = Plan(picks: seq<Pick>, shortOf: Option<string>)

  /** The choice AllocateNode makes: for each group in order, skip it when it has its size;
      otherwise fail when fewer nodes are free than it still needs, or take the first free
      node, computed against the record with the nodes taken so far. */
  function PlanAllocation(cat: Catalog, rec: Record, i: nat, groups: seq<NodeGroup>): (r: Plan)
    requires i < |rec|
    ensures |r.picks| <= |groups|
    decreases |groups|
  {
    if groups == [] then Plan([], None)
    else
      var g := groups[0];
      if Remaining(rec, i, g) <= 0 then PlanAllocation(cat, rec, i, groups[1..])
      else
        var free := FreeNodes(cat, rec, g.hwProfile);
        if Remaining(rec, i, g) > |free| then Plan([], Some(g.hwProfile))
        else
          var rest := PlanAllocation(cat, AppendNode(rec, i, g.name, free[0]), i, groups[1..]);
          Plan([Pick(free[0], g.name, g.hwProfile)] + rest.picks, rest.shortOf)
  }

  /** The record after appending the picked nodes, in order. */
  function ApplyPicks(rec: Record, i: nat, picks: seq<Pick>): (r: Record)
    requires i < |rec|
    ensures |r| == |rec|
    decreases |picks|
  {
    if picks == [] then rec
    else ApplyPicks(AppendNode(rec, i, picks[0].group, picks[0].node), i, picks[1..])
  }

  lemma {:induction false} ApplyPicksSnoc(rec: Record, i: nat, picks: seq<Pick>, p: Pick)
    requires i < |rec|
    ensures ApplyPicks(rec, i, picks + [p]) == AppendNode(ApplyPicks(rec, i, picks), i, p.group, p.node)
    decreases |picks|
  {
    if picks != [] {
      assert (picks + [p])[1..] == picks[1..] + [p];
      ApplyPicksSnoc(AppendNode(rec, i, picks[0].group, picks[0].node), i, picks[1..], p);
    }
  }

  /** Isolation: the picks change only cloud `i`, and not its ID. */
  lemma {:induction false} ApplyPicksIsolation(rec: Record, i: nat, picks: seq<Pick>)
    requires i < |rec|
    ensures forall j :: 0 <= j < |rec| && j != i ==> ApplyPicks(rec, i, picks)[j] == rec[j]
    ensures ApplyPicks(rec, i, picks)[i].cloudID == rec[i].cloudID
    decreases |picks|
  {
    if picks != [] {
      ApplyPicksIsolation(AppendNode(rec, i, picks[0].group, picks[0].node), i, picks[1..]);
    }
  }

  /** A group no pick names keeps its list. */
  lemma {:induction false} ApplyPicksUntouched(rec: Record, i: nat, picks: seq<Pick>, name: string)
    requires i < |rec|
    requires forall j :: 0 <= j < |picks| ==> picks[j].group != name
    ensures GroupNodes(ApplyPicks(rec, i, picks)[i], name) == GroupNodes(rec[i], name)
    decreases |picks|
  {
    if picks != [] {
      ApplyPicksUntouched(AppendNode(rec, i, picks[0].group, picks[0].node), i, picks[1..], name);
    }
  }

  /** Each pick is the first free node of its profile in the record holding the earlier picks;
      in particular it is declared by that profile and in use nowhere. Each pick names a group
      of the request and that group's profile. */
  lemma {:induction false} PlanPicksFirstFree(cat: Catalog, rec: Record, i: nat, groups: seq<NodeGroup>, j: nat)
    requires i < |rec|
    requires j < |PlanAllocation(cat, rec, i, groups).picks|
    ensures var p := PlanAllocation(cat, rec, i, groups).picks;
            var before := ApplyPicks(rec, i, p[..j]);
            && FreeNodes(cat, before, p[j].profile) != []
            && p[j].node == FreeNodes(cat, before, p[j].profile)[0]
            && p[j].node in Declared(cat, p[j].profile)
            && p[j].node !in InUse(before)
            && exists k :: 0 <= k < |groups| && groups[k].name == p[j].group && groups[k].hwProfile == p[j].profile
                           && Remaining(before, i, groups[k]) > 0
    decreases |groups|
  {
    var g := groups[0];
    var p := PlanAllocation(cat, rec, i, groups).picks;
    if Remaining(rec, i, g) <= 0 {
      PlanPicksFirstFree(cat, rec, i, groups[1..], j);
      var k :| 0 <= k < |groups[1..]| && groups[1..][k].name == p[j].group && groups[1..][k].hwProfile == p[j].profile
               && Remaining(ApplyPicks(rec, i, p[..j]), i, groups[1..][k]) > 0;
      assert groups[k + 1] == groups[1..][k];
    } else {
      var free := FreeNodes(cat, rec, g.hwProfile);
      var rec' := AppendNode(rec, i, g.name, free[0]);
      var rest := PlanAllocation(cat, rec', i, groups[1..]).picks;
      assert p == [Pick(free[0], g.name, g.hwProfile)] + rest;
      if j == 0 {
        assert ApplyPicks(rec, i, p[..0]) == rec;
        FreeNodesMember(cat, rec, g.hwProfile, free[0]);
      } else {
        PlanPicksFirstFree(cat, rec', i, groups[1..], j - 1);
        assert p[..j][0] == p[0] && p[..j][1..] == rest[..j - 1];
        assert ApplyPicks(rec, i, p[..j]) == ApplyPicks(rec', i, rest[..j - 1]);
        var k :| 0 <= k < |groups[1..]| && groups[1..][k].name == rest[j - 1].group && groups[1..][k].hwProfile == rest[j - 1].profile
                 && Remaining(ApplyPicks(rec', i, rest[..j - 1]), i, groups[1..][k]) > 0;
        assert groups[k + 1] == groups[1..][k];
      }
    }
  }

  /** No double allocation is preserved: if no node is listed twice before the call, none is
      listed twice in any record the call goes through. */
  lemma {:induction false} PlanPreservesNoDouble(cat: Catalog, rec: Record, i: nat, groups: seq<NodeGroup>, w: nat)
    requires i < |rec| && NoDoubleAllocation(rec)
    requires w <= |PlanAllocation(cat, rec, i, groups).picks|
    ensures NoDoubleAllocation(ApplyPicks(rec, i, PlanAllocation(cat, rec, i, groups).picks[..w]))
    decreases |groups|
  {
    var p := PlanAllocation(cat, rec, i, groups).picks;
    if w == 0 {
      assert ApplyPicks(rec, i, p[..0]) == rec;
    } else {
      var g := groups[0];
      if Remaining(rec, i, g) <= 0 {
        PlanPreservesNoDouble(cat, rec, i, groups[1..], w);
      } else {
        var free := FreeNodes(cat, rec, g.hwProfile);
        var rec' := AppendNode(rec, i, g.name, free[0]);
        var rest := PlanAllocation(cat, rec', i, groups[1..]).picks;
        FreeNodesMember(cat, rec, g.hwProfile, free[0]);
        AppendNodeNoDouble(rec, i, g.name, free[0]);
        PlanPreservesNoDouble(cat, rec', i, groups[1..], w - 1);
        assert p[..w][0] == p[0] && p[..w][1..] == rest[..w - 1];
      }
    }
  }

  /** Satisfied groups are untouched: a group name all of whose groups already have their size
      receives no node. */
  lemma {:induction false} PlanSkipsSatisfied(cat: Catalog, rec: Record, i: nat, groups: seq<NodeGroup>, name: string)
    requires i < |rec|
    requires forall k :: 0 <= k < |groups| && groups[k].name == name ==> Remaining(rec, i, groups[k]) <= 0
    ensures forall j :: 0 <= j < |PlanAllocation(cat, rec, i, groups).picks| ==> PlanAllocation(cat, rec, i, groups).picks[j].group != name
    ensures GroupNodes(ApplyPicks(rec, i, PlanAllocation(cat, rec, i, groups).picks)[i], name) == GroupNodes(rec[i], name)
    decreases |groups|
  {
    var p := PlanAllocation(cat, rec, i, groups).picks;
    if groups != [] {
      var g := groups[0];
      assert forall k :: 0 <= k < |groups[1..]| ==> groups[1..][k] == groups[k + 1];
      if Remaining(rec, i, g) <= 0 {
        PlanSkipsSatisfied(cat, rec, i, groups[1..], name);
      } else if Remaining(rec, i, g) <= |FreeNodes(cat, rec, g.hwProfile)| {
        var free := FreeNodes(cat, rec, g.hwProfile);
        var rec' := AppendNode(rec, i, g.name, free[0]);
        assert g.name != name;
        PlanSkipsSatisfied(cat, rec', i, groups[1..], name);
      }
    }
    ApplyPicksUntouched(rec, i, p, name);
  }

  /** A request whose groups all have their size chooses nothing and does not fail. */
  lemma {:induction false} PlanWhenSatisfied(cat: Catalog, rec: Record, i: nat, groups: seq<NodeGroup>)
    requires i < |rec|
    requires forall k :: 0 <= k < |groups| ==> Remaining(rec, i, groups[k]) <= 0
    ensures PlanAllocation(cat, rec, i, groups) == Plan([], None)
    decreases |groups|
  {
    if groups != [] {
      assert forall k :: 0 <= k < |groups[1..]| ==> groups[1..][k] == groups[k + 1];
      PlanWhenSatisfied(cat, rec, i, groups[1..]);
    }
  }

  /** The plan fails only at a group that, in the record holding all the picks made, still needs
      more nodes than its profile has free. */
  lemma {:induction false} PlanShortfall(cat: Catalog, rec: Record, i: nat, groups: seq<NodeGroup>)
    requires i < |rec|
    requires PlanAllocation(cat, rec, i, groups).shortOf.Some?
    ensures var pl := PlanAllocation(cat, rec, i, groups);
            var after := ApplyPicks(rec, i, pl.picks);
            exists k :: 0 <= k < |groups| && groups[k].hwProfile == pl.shortOf.value
                        && 0 < Remaining(after, i, groups[k])
                        && |FreeNodes(cat, after, groups[k].hwProfile)| < Remaining(after, i, groups[k])
    decreases |groups|
  {
    var g := groups[0];
    assert forall k :: 0 <= k < |groups[1..]| ==> groups[1..][k] == groups[k + 1];
    if Remaining(rec, i, g) <= 0 {
      PlanShortfall(cat, rec, i, groups[1..]);
    } else if Remaining(rec, i, g) > |FreeNodes(cat, rec, g.hwProfile)| {
      assert ApplyPicks(rec, i, []) == rec;
    } else {
      var free := FreeNodes(cat, rec, g.hwProfile);
      var rec' := AppendNode(rec, i, g.name, free[0]);
      PlanShortfall(cat, rec', i, groups[1..]);
    }
  }

  /** No two groups of the request share a name. */
  predicate DistinctNames(groups: seq<NodeGroup>) {
    forall a, b :: 0 <= a < b < |groups| ==> groups[a].name != groups[b].name
  }

  /** Up to one node per short group: with distinct group names and no shortfall, every group
      that was short gets exactly one more node at the end of its list and every other group
      keeps its list. */
  lemma {:induction false} PlanOnePerShortGroup(cat: Catalog, rec: Record, i: nat, groups: seq<NodeGroup>, k: nat)
    requires i < |rec| && DistinctNames(groups) && k < |groups|
    requires PlanAllocation(cat, rec, i, groups).shortOf.None?
    ensures var after := GroupNodes(ApplyPicks(rec, i, PlanAllocation(cat, rec, i, groups).picks)[i], groups[k].name);
            var before := GroupNodes(rec[i], groups[k].name);
            && |after| == |before| + (if Remaining(rec, i, groups[k]) > 0 then 1 else 0)
            && after[..|before|] == before
    decreases |groups|
  {
    var g := groups[0];
    var rest := groups[1..];
    assert forall m :: 0 <= m < |rest| ==> rest[m] == groups[m + 1];
    assert DistinctNames(rest);
    var p := PlanAllocation(cat, rec, i, groups).picks;
    if Remaining(rec, i, g) <= 0 {
      if k == 0 {
        PlanPickNames(cat, rec, i, rest, g.name);
        ApplyPicksUntouched(rec, i, p, g.name);
      } else {
        PlanOnePerShortGroup(cat, rec, i, rest, k - 1);
      }
    } else {
      var free := FreeNodes(cat, rec, g.hwProfile);
      var rec' := AppendNode(rec, i, g.name, free[0]);
      var restPicks := PlanAllocation(cat, rec', i, rest).picks;
      assert p[0].group == g.name && p[1..] == restPicks;
      if k == 0 {
        PlanPickNames(cat, rec', i, rest, g.name);
        ApplyPicksUntouched(rec', i, restPicks, g.name);
      } else {
        assert groups[k].name != g.name;
        PlanOnePerShortGroup(cat, rec', i, rest, k - 1);
      }
    }
  }

  /** With distinct group names, a plan over the groups after the first never picks for a group
      named like one outside them. */
  lemma PlanPickNames(cat: Catalog, rec: Record, i: nat, groups: seq<NodeGroup>, name: string)
    requires i < |rec|
    requires forall k :: 0 <= k < |groups| ==> groups[k].name != name
    ensures forall j :: 0 <= j < |PlanAllocation(cat, rec, i, groups).picks| ==> PlanAllocation(cat, rec, i, groups).picks[j].group != name
  {
    forall j | 0 <= j < |PlanAllocation(cat, rec, i, groups).picks|
      ensures PlanAllocation(cat, rec, i, groups).picks[j].group != name
    {
      PlanPicksFirstFree(cat, rec, i, groups, j);
    }
  }

  /** The Node objects created for the picks, in order. */
  function AddNodes(nodes: map<string, Node>, cloudID: string, picks: seq<Pick>): map<string, Node>
    decreases |picks|
  {
    if picks == [] then nodes
    else AddNodes(nodes[picks[0].node := Node(picks[0].node, cloudID, picks[0].group, picks[0].profile)], cloudID, picks[1..])
  }

  /** Carrying out the picks: for each, append it to the in-memory record, write the whole record
      to the config map, then create the Node; the first failing API call ends the step. */
  function Execute(failAt: set<nat>, st: Store, rec: Record, i: nat, cloudID: string, picks: seq<Pick>): (r: (Store, Option<Error>))
    requires i < |rec|
    ensures r.0.profiles == st.profiles
    ensures st.calls <= r.0.calls <= st.calls + 2 * |picks|
    ensures r.1.None? ==> r.0.calls == st.calls + 2 * |picks|
    decreases |picks|
  {
    if picks == [] then (st, None)
    else
      var p := picks[0];
      var rec' := AppendNode(rec, i, p.group, p.node);
      if !CallOk(failAt, st.calls) then (st.(calls := st.calls + 1), Some(ConfigMapUpdateFailed))
      else
        var st1 := st.(calls := st.calls + 1, record := Some(rec'));
        if !CallOk(failAt, st1.calls) || p.node in st1.nodes then
          (st1.(calls := st1.calls + 1), Some(NodeCreateFailed(p.node)))
        else
          var st2 := st1.(calls := st1.calls + 1,
                          nodes := st1.nodes[p.node := Node(p.node, cloudID, p.group, p.profile)]);
          Execute(failAt, st2, rec', i, cloudID, picks[1..])
  }

  /** The rest of an AllocateNode call from the group list `groups` on. */
  function Finish(failAt: set<nat>, st: Store, cat: Catalog, rec: Record, i: nat, cloudID: string, groups: seq<NodeGroup>): (r: (Store, Option<Error>))
    requires i < |rec|
    ensures r.0.profiles == st.profiles
    ensures st.calls <= r.0.calls <= st.calls + 2 * |groups|
  {
    var plan := PlanAllocation(cat, rec, i, groups);
    var r := Execute(failAt, st, rec, i, cloudID, plan.picks);
    if r.1.None? && plan.shortOf.Some? then (r.0, Some(NotEnoughRemaining(plan.shortOf.value))) else r
  }

  /** Planning first and executing afterwards is Go's interleaved loop: one group of `Finish` skips
      a satisfied group, stops at a short one, or picks the first free node, writes the record
      and creates the Node before going on with the next group. */
  lemma FinishStep(failAt: set<nat>, st: Store, cat: Catalog, rec: Record, i: nat, cloudID: string, groups: seq<NodeGroup>)
    requires i < |rec| && groups != []
    ensures var g := groups[0];
            var free := FreeNodes(cat, rec, g.hwProfile);
            Finish(failAt, st, cat, rec, i, cloudID, groups) ==
              if Remaining(rec, i, g) <= 0 then Finish(failAt, st, cat, rec, i, cloudID, groups[1..])
              else if Remaining(rec, i, g) > |free| then (st, Some(NotEnoughRemaining(g.hwProfile)))
              else
                var rec' := AppendNode(rec, i, g.name, free[0]);
                if !CallOk(failAt, st.calls) then (st.(calls := st.calls + 1), Some(ConfigMapUpdateFailed))
                else if !CallOk(failAt, st.calls + 1) || free[0] in st.nodes then
                  (st.(calls := st.calls + 2, record := Some(rec')), Some(NodeCreateFailed(free[0])))
                else
                  Finish(failAt, st.(calls := st.calls + 2, record := Some(rec'),
                                     nodes := st.nodes[free[0] := Node(free[0], cloudID, g.name, g.hwProfile)]),
                         cat, rec', i, cloudID, groups[1..])
  {
    var g := groups[0];
    var free := FreeNodes(cat, rec, g.hwProfile);
    if 0 < Remaining(rec, i, g) <= |free| {
      var rec' := AppendNode(rec, i, g.name, free[0]);
      var rest := PlanAllocation(cat, rec', i, groups[1..]);
      var picks := [Pick(free[0], g.name, g.hwProfile)] + rest.picks;
      assert PlanAllocation(cat, rec, i, groups) == Plan(picks, rest.shortOf);
      assert picks[0] == Pick(free[0], g.name, g.hwProfile) && picks[1..] == rest.picks;
    }
  }

  /** AllocateNode: read the config map, find or add the cloud's entry, then go through the
      groups; at most one record write and one Node create per group. */
  function AllocateNodeSpec(failAt: set<nat>, st: Store, pool: NodePoolSpec): (r: (Store, Option<Error>))
    ensures r.0.profiles == st.profiles
    ensures st.calls < r.0.calls <= st.calls + 1 + 2 * |pool.groups|
    ensures Resources(failAt, st).None? ==> r == (st.(calls := st.calls + 1), Some(ResourcesUnavailable))
  {
    var st1 := st.(calls := st.calls + 1);
    match Resources(failAt, st)
    case None => (st1, Some(ResourcesUnavailable))
    case Some((cat, rec0)) =>
      var (rec, i) := WithCloud(rec0, pool.cloudID);
      Finish(failAt, st1, cat, rec, i, pool.cloudID, pool.groups)
  }

  /** Every record update is followed by the creation of the Node for the same name, group and
      profile: the call leaves the config map holding the record after the first `w` picks
      (or untouched when `w` is 0) and has created the Nodes of the first `c` picks, where `c`
      is `w` or, when the create after the last write failed, `w - 1`. Existing Nodes are kept.
      A call that returns no error did all the picks. */
  lemma {:induction false} ExecuteIsPrefix(failAt: set<nat>, st: Store, rec: Record, i: nat, cloudID: string, picks: seq<Pick>)
    returns (w: nat, c: nat)
    requires i < |rec|
    ensures c <= w <= |picks| && w <= c + 1
    ensures Execute(failAt, st, rec, i, cloudID, picks).0.record
            == (if w == 0 then st.record else Some(ApplyPicks(rec, i, picks[..w])))
    ensures Execute(failAt, st, rec, i, cloudID, picks).0.nodes == AddNodes(st.nodes, cloudID, picks[..c])
    ensures Execute(failAt, st, rec, i, cloudID, picks).0.profiles == st.profiles
    ensures Execute(failAt, st, rec, i, cloudID, picks).1.None? ==> w == |picks| && c == |picks|
    decreases |picks|
  {
    if picks == [] {
      w, c := 0, 0;
      assert picks[..0] == [];
    } else {
      var p := picks[0];
      var rec' := AppendNode(rec, i, p.group, p.node);
      var st1 := st.(calls := st.calls + 1, record := Some(rec'));
      assert picks[..1] == [p];
      assert ApplyPicks(rec, i, [p]) == rec';
      assert picks[..0] == [];
      if !CallOk(failAt, st.calls) {
        w, c := 0, 0;
      } else if !CallOk(failAt, st1.calls) || p.node in st1.nodes {
        w, c := 1, 0;
      } else {
        var st2 := st1.(calls := st1.calls + 1, nodes := st1.nodes[p.node := Node(p.node, cloudID, p.group, p.profile)]);
        assert Execute(failAt, st, rec, i, cloudID, picks) == Execute(failAt, st2, rec', i, cloudID, picks[1..]);
        var w', c' := ExecuteIsPrefix(failAt, st2, rec', i, cloudID, picks[1..]);
        w, c := w' + 1, c' + 1;
        assert picks[..w][0] == p && picks[..w][1..] == picks[1..][..w'];
        assert ApplyPicks(rec, i, picks[..w]) == ApplyPicks(rec', i, picks[1..][..w']);
        assert picks[..c][0] == p && picks[..c][1..] == picks[1..][..c'];
        assert AddNodes(st.nodes, cloudID, picks[..c]) == AddNodes(st2.nodes, cloudID, picks[1..][..c']);
      }
    }
  }

  /** Nodes that existed before are kept as they were, since a create of an existing name fails. */
  lemma {:induction false} ExecuteKeepsNodes(failAt: set<nat>, st: Store, rec: Record, i: nat, cloudID: string, picks: seq<Pick>, n: string)
    requires i < |rec| && n in st.nodes
    ensures n in Execute(failAt, st, rec, i, cloudID, picks).0.nodes
    ensures Execute(failAt, st, rec, i, cloudID, picks).0.nodes[n] == st.nodes[n]
    decreases |picks|
  {
    if picks != [] {
      var p := picks[0];
      var rec' := AppendNode(rec, i, p.group, p.node);
      var st1 := st.(calls := st.calls + 1, record := Some(rec'));
      if CallOk(failAt, st.calls) && CallOk(failAt, st1.calls) && p.node !in st1.nodes {
        var st2 := st1.(calls := st1.calls + 1, nodes := st1.nodes[p.node := Node(p.node, cloudID, p.group, p.profile)]);
        ExecuteKeepsNodes(failAt, st2, rec', i, cloudID, picks[1..], n);
      }
    }
  }

  /** A request that already has all its nodes changes nothing but the API-call count
      (idempotence); in particular an empty entry added for an unknown cloud is not written. */
  lemma AllocateNodeWhenSatisfied(failAt: set<nat>, st: Store, pool: NodePoolSpec)
    requires Resources(failAt, st).Some?
    requires var (rec, i) := WithCloud(Resources(failAt, st).value.1, pool.cloudID);
             forall k :: 0 <= k < |pool.groups| ==> Remaining(rec, i, pool.groups[k]) <= 0
    ensures AllocateNodeSpec(failAt, st, pool) == (st.(calls := st.calls + 1), None)
  {
    var (cat, rec0) := Resources(failAt, st).value;
    var (rec, i) := WithCloud(rec0, pool.cloudID);
    PlanWhenSatisfied(cat, rec, i, pool.groups);
  }

  /** Adding an empty entry for a new cloud keeps no double allocation. */
  lemma WithCloudNoDouble(rec: Record, id: string)
    requires NoDoubleAllocation(rec)
    ensures NoDoubleAllocation(WithCloud(rec, id).0)
  {
    var r := WithCloud(rec, id).0;
    if r != rec {
      assert r[|rec|].nodegroups == map[];
      assert forall j :: 0 <= j < |rec| ==> r[j] == rec[j];
    }
  }

  /** AllocateNode never breaks the no-double-allocation invariant of the persisted record, and
      leaves every other cloud's entry as it was. */
  lemma AllocateNodeKeepsInvariant(failAt: set<nat>, st: Store, pool: NodePoolSpec)
    requires NoDoubleAllocation(st.record.GetOr([]))
    ensures var st' := AllocateNodeSpec(failAt, st, pool).0;
            && NoDoubleAllocation(st'.record.GetOr([]))
            && st'.profiles == st.profiles
            && (st'.record != st.record ==>
                 var rec0 := st.record.GetOr([]);
                 var (rec, i) := WithCloud(rec0, pool.cloudID);
                 && st'.record.Some? && |st'.record.value| == |rec|
                 && st'.record.value[i].cloudID == pool.cloudID
                 && forall j :: 0 <= j < |rec0| && j != i ==> st'.record.value[j] == rec0[j])
  {
    var st1 := st.(calls := st.calls + 1);
    if Resources(failAt, st).Some? {
      var (cat, rec0) := Resources(failAt, st).value;
      var (rec, i) := WithCloud(rec0, pool.cloudID);
      WithCloudNoDouble(rec0, pool.cloudID);
      var plan := PlanAllocation(cat, rec, i, pool.groups);
      var w, c := ExecuteIsPrefix(failAt, st1, rec, i, pool.cloudID, plan.picks);
      assert AllocateNodeSpec(failAt, st, pool).0 == Execute(failAt, st1, rec, i, pool.cloudID, plan.picks).0;
      if w > 0 {
        PlanPreservesNoDouble(cat, rec, i, pool.groups, w);
        ApplyPicksIsolation(rec, i, plan.picks[..w]);
      }
    }
  }

  /** AllocateNode keeps one entry per cloud ID in the persisted record: the entry it may add is
      for an ID that had none. */
  lemma AllocateNodeKeepsUniqueIDs(failAt: set<nat>, st: Store, pool: NodePoolSpec)
    requires UniqueCloudIDs(st.record.GetOr([]))
    ensures UniqueCloudIDs(AllocateNodeSpec(failAt, st, pool).0.record.GetOr([]))
  {
    var st1 := st.(calls := st.calls + 1);
    if Resources(failAt, st).Some? {
      var (cat, rec0) := Resources(failAt, st).value;
      var (rec, i) := WithCloud(rec0, pool.cloudID);
      WithCloudKeepsUniqueIDs(rec0, pool.cloudID);
      var plan := PlanAllocation(cat, rec, i, pool.groups);
      var w, c := ExecuteIsPrefix(failAt, st1, rec, i, pool.cloudID, plan.picks);
      assert AllocateNodeSpec(failAt, st, pool).0 == Execute(failAt, st1, rec, i, pool.cloudID, plan.picks).0;
      if w > 0 {
        ApplyPicksIsolation(rec, i, plan.picks[..w]);
      }
    }
  }

  /** The index of the first group that does not yet have its size, if any. */
  function FirstShort(rec: Record, i: nat, groups: seq<NodeGroup>): (r: Option<nat>)
    requires i < |rec|
    ensures r.None? <==> forall k :: 0 <= k < |groups| ==> Remaining(rec, i, groups[k]) <= 0
    ensures r.Some? ==> r.value < |groups| && Remaining(rec, i, groups[r.value]) > 0
                        && forall k :: 0 <= k < r.value ==> Remaining(rec, i, groups[k]) <= 0
    decreases |groups|
  {
    if groups == [] then None
    else if Remaining(rec, i, groups[0]) > 0 then Some(0)
    else
      assert forall k :: 0 <= k < |groups[1..]| ==> groups[1..][k] == groups[k + 1];
      match FirstShort(rec, i, groups[1..])
      case None => None
      case Some(k) => Some(k + 1)
  }

  /** IsNodeFullyAllocated on a parsed record: false for an unknown cloud; true when every group
      has its size; otherwise false, with an error when the first short group needs more nodes
      than its profile has free. */
  function FullyAllocated(cat: Catalog, rec: Record, pool: NodePoolSpec): (r: (bool, Option<Error>))
    ensures FindCloud(rec, pool.cloudID).None? ==> r == (false, None)
    ensures r.1.Some? ==> !r.0
  {
    match FindCloud(rec, pool.cloudID)
    case None => (false, None)
    case Some(i) =>
      match FirstShort(rec, i, pool.groups)
      case None => (true, None)
      case Some(k) =>
        var g := pool.groups[k];
        if Remaining(rec, i, g) > |FreeNodes(cat, rec, g.hwProfile)| then (false, Some(NotEnoughRemaining(g.hwProfile)))
        else (false, None)
  }

  /** Full-allocation check: true exactly when the cloud has an entry and every group has at
      least its size; an error exactly when the first short group lacks free nodes. */
  lemma FullyAllocatedMeaning(cat: Catalog, rec: Record, pool: NodePoolSpec)
    ensures FullyAllocated(cat, rec, pool).0 <==>
              FindCloud(rec, pool.cloudID).Some? &&
              forall k :: 0 <= k < |pool.groups| ==> |GroupNodes(rec[FindCloud(rec, pool.cloudID).value], pool.groups[k].name)| >= pool.groups[k].size
    ensures FullyAllocated(cat, rec, pool).1.Some? <==>
              FindCloud(rec, pool.cloudID).Some? &&
              var i := FindCloud(rec, pool.cloudID).value;
              exists k :: 0 <= k < |pool.groups| && Remaining(rec, i, pool.groups[k]) > 0
                          && (forall m :: 0 <= m < k ==> Remaining(rec, i, pool.groups[m]) <= 0)
                          && Remaining(rec, i, pool.groups[k]) > |FreeNodes(cat, rec, pool.groups[k].hwProfile)|
  {
    match FindCloud(rec, pool.cloudID)
    case None =>
    case Some(i) =>
      match FirstShort(rec, i, pool.groups)
      case None =>
      case Some(k) =>
        forall k' | 0 <= k' < |pool.groups| && Remaining(rec, i, pool.groups[k']) > 0
                    && (forall m :: 0 <= m < k' ==> Remaining(rec, i, pool.groups[m]) <= 0)
          ensures k' == k
        {
          if k' < k { } else if k < k' { }
        }
  }

  /** IsNodeFullyAllocated: one read, then the check. */
  function IsFullySpec(failAt: set<nat>, st: Store, pool: NodePoolSpec): (r: (Store, bool, Option<Error>))
    ensures r.0 == st.(calls := st.calls + 1)
    ensures Resources(failAt, st).None? ==> !r.1 && r.2 == Some(ResourcesUnavailable)
    ensures r.2.Some? ==> !r.1
  {
    var st1 := st.(calls := st.calls + 1);
    match Resources(failAt, st)
    case None => (st1, false, Some(ResourcesUnavailable))
    case Some((cat, rec)) => var r := FullyAllocated(cat, rec, pool); (st1, r.0, r.1)
  }

  /** `n` AllocateNode calls in a row, stopping at the first error. */
  function AllocateTimes(failAt: set<nat>, st: Store, pool: NodePoolSpec, n: nat): (r: (Store, Option<Error>))
    ensures r.0.profiles == st.profiles
    ensures r.1.None? ==> r.0.calls >= st.calls + n
    ensures r.1.Some? ==> r.1.value.AllocateFailed? && r.0.calls > st.calls
    decreases n
  {
    if n == 0 then (st, None)
    else
      var r := AllocateNodeSpec(failAt, st, pool);
      if r.1.Some? then (r.0, Some(AllocateFailed(r.1.value)))
      else AllocateTimes(failAt, r.0, pool, n - 1)
  }

  /** CheckNodePoolProgress: the full check, then, when not full, one AllocateNode call per group. */
  function CheckProgressSpec(failAt: set<nat>, st: Store, pool: NodePoolSpec): (r: (Store, bool, Option<Error>))
    ensures r.0.profiles == st.profiles
    ensures r.1 ==> r.0 == st.(calls := st.calls + 1) && r.2.None?
    ensures r.2.Some? ==> !r.1
  {
    var (st1, full, err) := IsFullySpec(failAt, st, pool);
    if err.Some? then (st1, false, Some(CheckAllocationFailed(err.value)))
    else if full then (st1, true, None)
    else var r := AllocateTimes(failAt, st1, pool, |pool.groups|); (r.0, false, r.1)
  }

  /** A pool that is already fully allocated is reported full and nothing but the API-call
      count changes. */
  lemma CheckProgressWhenFull(failAt: set<nat>, st: Store, pool: NodePoolSpec)
    requires IsFullySpec(failAt, st, pool).1
    ensures CheckProgressSpec(failAt, st, pool) == (st.(calls := st.calls + 1), true, None)
  {
    var r := Resources(failAt, st).value;
    FullyAllocatedMeaning(r.0, r.1, pool);
  }

  /** With every group size at most zero, AllocateNode calls change nothing but the call count. */
  lemma {:induction false} AllocateTimesWhenEmpty(failAt: set<nat>, st: Store, pool: NodePoolSpec, n: nat)
    requires forall k :: 0 <= k < |pool.groups| ==> pool.groups[k].size <= 0
    ensures var st' := AllocateTimes(failAt, st, pool, n).0;
            st'.profiles == st.profiles && st'.record == st.record && st'.nodes == st.nodes
    decreases n
  {
    if n > 0 {
      var r := AllocateNodeSpec(failAt, st, pool);
      if Resources(failAt, st).Some? {
        AllocateNodeWhenSatisfied(failAt, st, pool);
      }
      AllocateTimesWhenEmpty(failAt, r.0, pool, n - 1);
    }
  }

  /** A pool whose groups all have size zero and that has no entry yet is never reported full:
      nothing is written for it, so the next check again finds no entry. */
  lemma ZeroSizePoolNeverFull(failAt: set<nat>, st: Store, pool: NodePoolSpec)
    requires forall k :: 0 <= k < |pool.groups| ==> pool.groups[k].size <= 0
    requires FindCloud(st.record.GetOr([]), pool.cloudID).None?
    ensures !CheckProgressSpec(failAt, st, pool).1
    ensures CheckProgressSpec(failAt, st, pool).0.record == st.record
    ensures CheckProgressSpec(failAt, st, pool).0.nodes == st.nodes
  {
    if Resources(failAt, st).Some? {
      var r := Resources(failAt, st).value;
      FullyAllocatedMeaning(r.0, r.1, pool);
    }
    AllocateTimesWhenEmpty(failAt, st.(calls := st.calls + 1), pool, |pool.groups|);
  }

  /** Repeated AllocateNode calls keep both invariants of the persisted record. */
  lemma {:induction false} AllocateTimesKeepsInvariants(failAt: set<nat>, st: Store, pool: NodePoolSpec, n: nat)
    requires NoDoubleAllocation(st.record.GetOr([])) && UniqueCloudIDs(st.record.GetOr([]))
    ensures var st' := AllocateTimes(failAt, st, pool, n).0;
            NoDoubleAllocation(st'.record.GetOr([])) && UniqueCloudIDs(st'.record.GetOr([]))
    decreases n
  {
    if n > 0 {
      var r := AllocateNodeSpec(failAt, st, pool);
      AllocateNodeKeepsInvariant(failAt, st, pool);
      AllocateNodeKeepsUniqueIDs(failAt, st, pool);
      if r.1.None? {
        AllocateTimesKeepsInvariants(failAt, r.0, pool, n - 1);
      }
    }
  }

  /** CheckNodePoolProgress keeps no double allocation and one entry per cloud ID, so the record
      it leaves meets what ReleaseNodePool needs to remove a cloud completely. */
  lemma CheckProgressKeepsInvariants(failAt: set<nat>, st: Store, pool: NodePoolSpec)
    requires NoDoubleAllocation(st.record.GetOr([])) && UniqueCloudIDs(st.record.GetOr([]))
    ensures var st' := CheckProgressSpec(failAt, st, pool).0;
            NoDoubleAllocation(st'.record.GetOr([])) && UniqueCloudIDs(st'.record.GetOr([]))
  {
    var (st1, full, err) := IsFullySpec(failAt, st, pool);
    if err.None? && !full {
      AllocateTimesKeepsInvariants(failAt, st1, pool, |pool.groups|);
      assert CheckProgressSpec(failAt, st, pool).0 == AllocateTimes(failAt, st1, pool, |pool.groups|).0;
    }
  }

  /** The index of the first group wanting more nodes than its profile has free, if any. */
  function FirstOversized(cat: Catalog, rec: Record, groups: seq<NodeGroup>): (r: Option<nat>)
    ensures r.None? <==> forall k :: 0 <= k < |groups| ==> groups[k].size <= |FreeNodes(cat, rec, groups[k].hwProfile)|
    ensures r.Some? ==> r.value < |groups| && groups[r.value].size > |FreeNodes(cat, rec, groups[r.value].hwProfile)|
                        && forall k :: 0 <= k < r.value ==> groups[k].size <= |FreeNodes(cat, rec, groups[k].hwProfile)|
    decreases |groups|
  {
    if groups == [] then None
    else if groups[0].size > |FreeNodes(cat, rec, groups[0].hwProfile)| then Some(0)
    else
      assert forall k :: 0 <= k < |groups[1..]| ==> groups[1..][k] == groups[k + 1];
      match FirstOversized(cat, rec, groups[1..])
      case None => None
      case Some(k) => Some(k + 1)
  }

  /** CreateNodePool: one read, then every group is checked against the same record. */
  function CreateNodePoolSpec(failAt: set<nat>, st: Store, pool: NodePoolSpec): (r: (Store, Option<Error>))
    ensures r.0 == st.(calls := st.calls + 1)
    ensures r.1.None? <==>
              Resources(failAt, st).Some? &&
              forall k :: 0 <= k < |pool.groups| ==>
                pool.groups[k].size <= |FreeNodes(Resources(failAt, st).value.0, Resources(failAt, st).value.1, pool.groups[k].hwProfile)|
    ensures Resources(failAt, st).None? ==> r.1 == Some(ResourcesUnavailable)
  {
    var st1 := st.(calls := st.calls + 1);
    match Resources(failAt, st)
    case None => (st1, Some(ResourcesUnavailable))
    case Some((cat, rec)) =>
      match FirstOversized(cat, rec, pool.groups)
      case None => (st1, None)
      case Some(k) =>
        var g := pool.groups[k];
        (st1, Some(NotEnoughFree(g.hwProfile, |FreeNodes(cat, rec, g.hwProfile)|)))
  }

  /** The record without entry `idx`, the other clouds in order ("slices.Delete"). */
  function RemoveAt(rec: Record, idx: nat): (r: Record)
    requires idx < |rec|
    ensures |r| == |rec| - 1
    ensures forall j :: 0 <= j < idx ==> r[j] == rec[j]
    ensures forall j :: idx < j < |rec| ==> r[j - 1] == rec[j]
  {
    rec[..idx] + rec[idx + 1..]
  }

  /** No two clouds share an ID. */
  predicate UniqueCloudIDs(rec: Record) {
    forall a, b :: 0 <= a < b < |rec| ==> rec[a].cloudID != rec[b].cloudID
  }

  /** Position `j` of the record without entry `idx`. */
  lemma RemoveAtIndex(rec: Record, idx: nat, j: nat)
    requires idx < |rec| && j < |rec| - 1
    ensures RemoveAt(rec, idx)[j] == rec[if j < idx then j else j + 1]
  {
  }

  /** Release completeness: after removing the cloud's entry the record has none for it. */
  lemma ReleaseRemovesEntry(rec: Record, id: string)
    requires UniqueCloudIDs(rec) && FindCloud(rec, id).Some?
    ensures FindCloud(RemoveAt(rec, FindCloud(rec, id).value), id).None?
    ensures UniqueCloudIDs(RemoveAt(rec, FindCloud(rec, id).value))
  {
    var idx := FindCloud(rec, id).value;
    var r := RemoveAt(rec, idx);
    forall j | 0 <= j < |r| ensures r[j].cloudID != id {
      RemoveAtIndex(rec, idx, j);
    }
    forall a, b | 0 <= a < b < |r| ensures r[a].cloudID != r[b].cloudID {
      RemoveAtIndex(rec, idx, a);
      RemoveAtIndex(rec, idx, b);
    }
  }

  lemma WithCloudKeepsUniqueIDs(rec: Record, id: string)
    requires UniqueCloudIDs(rec)
    ensures UniqueCloudIDs(WithCloud(rec, id).0)
  {
  }

  /** Released nodes are free again: with no double allocation, every node of the released cloud
      that a profile declares is free in the record without that cloud. */
  lemma ReleaseFreesNodes(cat: Catalog, rec: Record, idx: nat, name: string, n: string)
    requires idx < |rec| && NoDoubleAllocation(rec)
    requires n in CloudNodes(rec[idx]) && n in Declared(cat, name)
    ensures n in FreeNodes(cat, RemoveAt(rec, idx), name)
  {
    var r := RemoveAt(rec, idx);
    var g :| g in rec[idx].nodegroups && n in rec[idx].nodegroups[g];
    var x :| 0 <= x < |rec[idx].nodegroups[g]| && rec[idx].nodegroups[g][x] == n;
    FreeNodesMember(cat, r, name, n);
  }

  /** The concatenation of the lists of the named groups, in request order. */
  function GroupsConcat(c: AllocatedCloud, groups: seq<NodeGroup>): seq<string> {
    if groups == [] then []
    else GroupsConcat(c, groups[..|groups| - 1]) + GroupNodes(c, groups[|groups| - 1].name)
  }
}
