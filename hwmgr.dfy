/** The hardware-manager service: a class whose fields are the state its methods read and
    change through the API server (the "nodelist" config map and the Node objects), each method
    a loop as Go writes it. GetCurrentResources, CreateNodePool, AllocateNode, IsNodeFullyAllocated
    and CheckNodePoolProgress are proved equal to their function of module Engine; CreateNode,
    DeleteNode, DeleteNodes, UpdateConfigMap, GetAllocatedNodes and ReleaseNodePool state their
    effect on the state directly. */
module HwMgr {
  import opened Wrappers
  import opened Errors
  import opened Inventory
  import opened Engine
  import Sorting

  /** Removing two sets of keys one after the other removes their union. */
  lemma MapMinusTwice<K, V>(m: map<K, V>, a: set<K>, b: set<K>)
    ensures (m - a) - b == m - (a + b)
  {
  }

  /** The loop over the clouds that stops at the first one with this ID. */
  method FindCloudIndex(rec: Record, id: string) returns (idx: Option<nat>)
    ensures idx == FindCloud(rec, id)
  {
    var i := 0;
    while i < |rec|
      invariant 0 <= i <= |rec|
      invariant forall j :: 0 <= j < i ==> rec[j].cloudID != id
    {
      if rec[i].cloudID == id {
        return Some(i);
      }
      i := i + 1;
    }
    return None;
  }

  /** getFreeNodesInProfile: collect the nodes in use, then walk the profiles called `profname`
      and keep their nodes that are not in use. */
  method GetFreeNodesInProfile(hwprof: Catalog, alloc: Record, profname: string) returns (freenodes: seq<string>)
    ensures freenodes == FreeNodes(hwprof, alloc, profname)
  {
    var inuse: set<string> := {};
    var ci := 0;
    while ci < |alloc|
      invariant 0 <= ci <= |alloc|
      invariant inuse == InUse(alloc[..ci])
    {
      var cloud := alloc[ci];
      var pending := cloud.nodegroups.Keys;
      while pending != {}
        invariant pending <= cloud.nodegroups.Keys
        invariant inuse == InUse(alloc[..ci]) + ListedIn(cloud, cloud.nodegroups.Keys - pending)
        decreases pending
      {
        var groupname :| groupname in pending;
        var list := cloud.nodegroups[groupname];
        ghost var before := inuse;
        var j := 0;
        while j < |list|
          invariant 0 <= j <= |list|
          invariant inuse == before + (set x | x in list[..j])
        {
          assert list[..j + 1] == list[..j] + [list[j]];
          inuse := inuse + {list[j]};
          j := j + 1;
        }
        assert list[..j] == list;
        assert ListedIn(cloud, cloud.nodegroups.Keys - (pending - {groupname}))
            == ListedIn(cloud, cloud.nodegroups.Keys - pending) + (set x | x in list);
        pending := pending - {groupname};
      }
      InUseSnoc(alloc, ci);
      ci := ci + 1;
    }
    assert alloc[..ci] == alloc;

    freenodes := [];
    var pi := 0;
    while pi < |hwprof|
      invariant 0 <= pi <= |hwprof|
      invariant freenodes == FreeIn(hwprof[..pi], inuse, profname)
    {
      var profile := hwprof[pi];
      assert hwprof[..pi + 1][..pi] == hwprof[..pi];
      if profile.name == profname {
        ghost var before := freenodes;
        var j := 0;
        while j < |profile.nodes|
          invariant 0 <= j <= |profile.nodes|
          invariant freenodes == before + Unused(profile.nodes[..j], inuse)
        {
          assert profile.nodes[..j + 1][..j] == profile.nodes[..j];
          if profile.nodes[j] !in inuse {
            freenodes := freenodes + [profile.nodes[j]];
          }
          j := j + 1;
        }
        assert profile.nodes[..j] == profile.nodes;
      }
      pi := pi + 1;
    }
    assert hwprof[..pi] == hwprof;
  }

  class HwMgrService {
    /** Which API calls fail, by their number: the environment's behaviour, fixed per run. */
    const failAt: set<nat>
    /** How many API calls were made so far. */
    var calls: nat
    /** The "hwprofiles" document; None when the config map cannot be read or the key does not parse. */
    var profiles: Option<Catalog>
    /** The "allocated" document; None when the key is missing or does not parse. */
    var record: Option<Record>
    /** The Node objects of the namespace, by name. */
    var nodes: map<string, Node>

    function State(): Store
      reads this
    {
      Store(calls, profiles, record, nodes)
    }

    constructor (failAt: set<nat>, profiles: Option<Catalog>, record: Option<Record>, nodes: map<string, Node>)
      ensures this.failAt == failAt && State() == Store(0, profiles, record, nodes)
    {
      this.failAt := failAt;
      this.calls := 0;
      this.profiles := profiles;
      this.record := record;
      this.nodes := nodes;
    }

    /** One request to the API server. */
    method Call() returns (ok: bool)
      modifies this`calls
      ensures ok == CallOk(failAt, old(calls)) && calls == old(calls) + 1
    {
      ok := CallOk(failAt, calls);
      calls := calls + 1;
    }

    /** GetCurrentResources: get the config map and parse its two documents. */
    method GetCurrentResources() returns (res: Option<(Catalog, Record)>)
      modifies this`calls
      ensures res == Resources(failAt, old(State()))
      ensures State() == old(State()).(calls := old(calls) + 1)
    {
      var ok := Call();
      if !ok || profiles.None? {
        return None;
      }
      return Some((profiles.value, record.GetOr([])));
    }

    /** Client.Update of the config map with the "allocated" document replaced. */
    method UpdateConfigMap(rec: Record) returns (ok: bool)
      modifies this`calls, this`record
      ensures ok == CallOk(failAt, old(calls)) && calls == old(calls) + 1
      ensures record == if ok then Some(rec) else old(record)
    {
      ok := Call();
      if ok {
        record := Some(rec);
      }
    }

    /** CreateNode: creating a Node whose name exists already fails. */
    method CreateNode(cloudID: string, nodename: string, groupname: string, hwprofile: string) returns (err: Option<Error>)
      modifies this`calls, this`nodes
      ensures calls == old(calls) + 1
      ensures err.None? <==> CallOk(failAt, old(calls)) && nodename !in old(nodes)
      ensures err.Some? ==> err.value == NodeCreateFailed(nodename)
      ensures nodes == if err.None? then old(nodes)[nodename := Node(nodename, cloudID, groupname, hwprofile)] else old(nodes)
    {
      var ok := Call();
      if !ok || nodename in nodes {
        return Some(NodeCreateFailed(nodename));
      }
      nodes := nodes[nodename := Node(nodename, cloudID, groupname, hwprofile)];
      return None;
    }

    /** DeleteNode: deleting a Node that does not exist fails (NotFound). */
    method DeleteNode(nodename: string) returns (err: Option<Error>)
      modifies this`calls, this`nodes
      ensures calls == old(calls) + 1
      ensures err.None? <==> CallOk(failAt, old(calls)) && nodename in old(nodes)
      ensures err.Some? ==> err.value == NodeDeleteFailed(nodename)
      ensures nodes == if err.None? then old(nodes) - {nodename} else old(nodes)
    {
      var ok := Call();
      if !ok || nodename !in nodes {
        return Some(NodeDeleteFailed(nodename));
      }
      nodes := nodes - {nodename};
      return None;
    }

    /** CreateNodePool: the admission check; every group against the record as read. */
    method CreateNodePool(pool: NodePoolSpec) returns (err: Option<Error>)
      modifies this`calls
      ensures (State(), err) == CreateNodePoolSpec(failAt, old(State()), pool)
    {
      var res := GetCurrentResources();
      if res.None? {
        return Some(ResourcesUnavailable);
      }
      var (cat, rec) := res.value;
      var k := 0;
      while k < |pool.groups|
        invariant 0 <= k <= |pool.groups|
        invariant forall j :: 0 <= j < k ==> pool.groups[j].size <= |FreeNodes(cat, rec, pool.groups[j].hwProfile)|
        invariant State() == old(State()).(calls := old(calls) + 1)
      {
        var g := pool.groups[k];
        var freenodes := GetFreeNodesInProfile(cat, rec, g.hwProfile);
        if g.size > |freenodes| {
          assert FirstOversized(cat, rec, pool.groups) == Some(k);
          return Some(NotEnoughFree(g.hwProfile, |freenodes|));
        }
        k := k + 1;
      }
      return None;
    }

    /** AllocateNode: for each short group, append the first free node to the in-memory record,
        write the record, then create the Node. */
    method AllocateNode(pool: NodePoolSpec) returns (err: Option<Error>)
      modifies this`calls, this`record, this`nodes
      ensures (State(), err) == AllocateNodeSpec(failAt, old(State()), pool)
    {
      var res := GetCurrentResources();
      if res.None? {
        return Some(ResourcesUnavailable);
      }
      var (cat, rec0) := res.value;
      var idx := FindCloudIndex(rec0, pool.cloudID);
      var current := rec0;
      if idx.None? {
        current := current + [AllocatedCloud(pool.cloudID, map[])];
        idx := Some(|current| - 1);
      }
      var i := idx.value;
      assert (current, i) == WithCloud(rec0, pool.cloudID);
      var k := 0;
      while k < |pool.groups|
        invariant 0 <= k <= |pool.groups|
        invariant i < |current|
        invariant AllocateNodeSpec(failAt, old(State()), pool)
               == Finish(failAt, State(), cat, current, i, pool.cloudID, pool.groups[k..])
      {
        assert pool.groups[k..][1..] == pool.groups[k + 1..];
        current, err := AllocateGroup(cat, current, i, pool.cloudID, pool.groups[k..]);
        if err.Some? {
          return;
        }
        k := k + 1;
      }
      return None;
    }

    /** One iteration of AllocateNode's loop, for the first of `groups`. */
    method AllocateGroup(cat: Catalog, current: Record, i: nat, cloudID: string, groups: seq<NodeGroup>)
      returns (next: Record, err: Option<Error>)
      requires i < |current| && groups != []
      modifies this`calls, this`record, this`nodes
      ensures i < |next|
      ensures Finish(failAt, old(State()), cat, current, i, cloudID, groups)
           == if err.Some? then (State(), err) else Finish(failAt, State(), cat, next, i, cloudID, groups[1..])
    {
      FinishStep(failAt, State(), cat, current, i, cloudID, groups);
      next := current;
      var g := groups[0];
      var used := GroupNodes(current[i], g.name);
      var remaining := g.size - |used|;
      if remaining <= 0 {
        return next, None;
      }
      var freenodes := GetFreeNodesInProfile(cat, current, g.hwProfile);
      if remaining > |freenodes| {
        return next, Some(NotEnoughRemaining(g.hwProfile));
      }
      var nodename := freenodes[0];
      next := AppendNode(current, i, g.name, nodename);
      var ok := UpdateConfigMap(next);
      if !ok {
        return next, Some(ConfigMapUpdateFailed);
      }
      err := CreateNode(cloudID, nodename, g.name, g.hwProfile);
    }

    /** IsNodeFullyAllocated: stop at the first short group. */
    method IsNodeFullyAllocated(pool: NodePoolSpec) returns (full: bool, err: Option<Error>)
      modifies this`calls
      ensures (State(), full, err) == IsFullySpec(failAt, old(State()), pool)
    {
      var res := GetCurrentResources();
      if res.None? {
        return false, Some(ResourcesUnavailable);
      }
      var (cat, rec) := res.value;
      var idx := FindCloudIndex(rec, pool.cloudID);
      if idx.None? {
        return false, None;
      }
      var i := idx.value;
      var k := 0;
      while k < |pool.groups|
        invariant 0 <= k <= |pool.groups|
        invariant forall j :: 0 <= j < k ==> Remaining(rec, i, pool.groups[j]) <= 0
      {
        var g := pool.groups[k];
        var used := GroupNodes(rec[i], g.name);
        var remaining := g.size - |used|;
        if remaining <= 0 {
          k := k + 1;
          continue;
        }
        var freenodes := GetFreeNodesInProfile(cat, rec, g.hwProfile);
        if remaining > |freenodes| {
          return false, Some(NotEnoughRemaining(g.hwProfile));
        }
        return false, None;
      }
      return true, None;
    }

    /** GetAllocatedNodes: the named groups' nodes, sorted. */
    method GetAllocatedNodes(pool: NodePoolSpec) returns (allocatedNodes: seq<string>, err: Option<Error>)
      modifies this`calls
      ensures State() == old(State()).(calls := old(calls) + 1)
      ensures Resources(failAt, old(State())).None? ==> allocatedNodes == [] && err == Some(ResourcesUnavailable)
      ensures Resources(failAt, old(State())).Some? ==>
                var rec := Resources(failAt, old(State())).value.1;
                && err.None?
                && match FindCloud(rec, pool.cloudID)
                   case None => allocatedNodes == []
                   case Some(i) => Sorting.Sorted(allocatedNodes)
                                   && multiset(allocatedNodes) == multiset(GroupsConcat(rec[i], pool.groups))
    {
      var res := GetCurrentResources();
      if res.None? {
        return [], Some(ResourcesUnavailable);
      }
      var rec := res.value.1;
      var idx := FindCloudIndex(rec, pool.cloudID);
      if idx.None? {
        return [], None;
      }
      var cloud := rec[idx.value];
      var acc := [];
      var k := 0;
      while k < |pool.groups|
        invariant 0 <= k <= |pool.groups|
        invariant acc == GroupsConcat(cloud, pool.groups[..k])
      {
        assert pool.groups[..k + 1][..k] == pool.groups[..k];
        acc := acc + GroupNodes(cloud, pool.groups[k].name);
        k := k + 1;
      }
      assert pool.groups[..k] == pool.groups;
      return Sorting.Sort(acc), None;
    }

    /** CheckNodePoolProgress: nothing to do when full; otherwise one AllocateNode call per group. */
    method CheckNodePoolProgress(pool: NodePoolSpec) returns (full: bool, err: Option<Error>)
      modifies this`calls, this`record, this`nodes
      ensures (State(), full, err) == CheckProgressSpec(failAt, old(State()), pool)
    {
      var f, e := IsNodeFullyAllocated(pool);
      if e.Some? {
        return false, Some(CheckAllocationFailed(e.value));
      }
      if f {
        return true, None;
      }
      var k := 0;
      while k < |pool.groups|
        invariant 0 <= k <= |pool.groups|
        invariant CheckProgressSpec(failAt, old(State()), pool)
               == (AllocateTimes(failAt, State(), pool, |pool.groups| - k).0, false,
                   AllocateTimes(failAt, State(), pool, |pool.groups| - k).1)
      {
        var e2 := AllocateNode(pool);
        if e2.Some? {
          return false, Some(AllocateFailed(e2.value));
        }
        k := k + 1;
      }
      return false, None;
    }

    /** The inner loop of ReleaseNodePool: delete the listed Nodes in order, stopping at the first
        failure; `gone` are the names deleted. Each delete is one API call. When no call fails
        and the listed names are distinct and all exist, every delete succeeds. */
    method DeleteNodes(list: seq<string>) returns (err: Option<Error>, ghost gone: set<string>)
      modifies this`calls, this`nodes
      ensures gone <= (set x | x in list) && gone <= old(nodes).Keys && nodes == old(nodes) - gone
      ensures err.None? ==> gone == (set x | x in list)
      ensures err.Some? ==> err.value.NodeDeleteFailed? && err.value.node in list
      ensures calls == old(calls) + |gone| + (if err.Some? then 1 else 0)
      ensures (forall c :: c >= old(calls) ==> CallOk(failAt, c))
              && (forall a, b :: 0 <= a < b < |list| ==> list[a] != list[b])
              && (set x | x in list) <= old(nodes).Keys
              ==> err.None?
    {
      gone := {};
      var j := 0;
      while j < |list|
        invariant 0 <= j <= |list|
        invariant gone == (set x | x in list[..j])
        invariant gone <= old(nodes).Keys && nodes == old(nodes) - gone
        invariant calls == old(calls) + |gone|
        invariant (forall a, b :: 0 <= a < b < |list| ==> list[a] != list[b]) ==> |gone| == j
      {
        assert list[..j + 1] == list[..j] + [list[j]];
        err := DeleteNode(list[j]);
        if err.Some? {
          return;
        }
        if forall a, b :: 0 <= a < b < |list| ==> list[a] != list[b] {
          assert list[j] !in gone by {
            forall k | 0 <= k < j ensures list[..j][k] != list[j] {
              assert list[..j][k] == list[k];
            }
          }
        }
        gone := gone + {list[j]};
        j := j + 1;
      }
      assert list[..j] == list;
      return None, gone;
    }

    /** The outer loop of ReleaseNodePool: delete the Nodes of every group of `cloud`, group by
        group in no particular order, stopping at the first failure; `gone` are the names
        deleted. When no call fails, the record has no double allocation and every listed Node
        exists, every delete succeeds. */
    method DeleteCloudNodes(cloud: AllocatedCloud, ghost rec: Record, ghost idx: nat) returns (err: Option<Error>, ghost gone: set<string>)
      requires idx < |rec| && rec[idx] == cloud
      modifies this`calls, this`nodes
      ensures gone <= CloudNodes(cloud) && gone <= old(nodes).Keys && nodes == old(nodes) - gone
      ensures err.None? ==> gone == CloudNodes(cloud)
      ensures err.Some? ==> err.value.NodeDeleteFailed? && err.value.node in CloudNodes(cloud)
      ensures calls == old(calls) + |gone| + (if err.Some? then 1 else 0)
      ensures (forall c :: c >= old(calls) ==> CallOk(failAt, c))
              && NoDoubleAllocation(rec) && CloudNodes(cloud) <= old(nodes).Keys
              ==> err.None?
    {
      gone := {};
      err := None;
      ghost var allOk := (forall c :: c >= old(calls) ==> CallOk(failAt, c))
                         && NoDoubleAllocation(rec) && CloudNodes(cloud) <= old(nodes).Keys;
      var pending := cloud.nodegroups.Keys;
      while pending != {}
        invariant pending <= cloud.nodegroups.Keys
        invariant gone == ListedIn(cloud, cloud.nodegroups.Keys - pending)
        invariant gone <= CloudNodes(cloud)
        invariant gone <= old(nodes).Keys && nodes == old(nodes) - gone
        invariant calls == old(calls) + |gone|
        invariant err.None?
        decreases pending
      {
        var groupname :| groupname in pending;
        var list := cloud.nodegroups[groupname];
        ghost var done := cloud.nodegroups.Keys - pending;
        assert cloud.nodegroups.Keys - (pending - {groupname}) == done + {groupname};
        ListedInAdd(cloud, done, groupname);
        if allOk {
          NoDoubleGroupFresh(rec, idx, done, groupname);
          assert (set x | x in list) <= nodes.Keys;
        }
        ghost var deleted;
        err, deleted := DeleteNodes(list);
        assert deleted * gone == {};
        MapMinusTwice(old(nodes), gone, deleted);
        gone := gone + deleted;
        if err.Some? {
          return;
        }
        pending := pending - {groupname};
      }
    }

    /** ReleaseNodePool: delete the Nodes of every group of the cloud's entry (in no particular
        order of groups), then write the record without that entry. */
    method ReleaseNodePool(pool: NodePoolSpec) returns (err: Option<Error>)
      modifies this`calls, this`record, this`nodes
      ensures Resources(failAt, old(State())).None? ==>
                err == Some(ResourcesUnavailable) && record == old(record) && nodes == old(nodes)
                && calls == old(calls) + 1
      ensures Resources(failAt, old(State())).Some? ==>
                var rec := Resources(failAt, old(State())).value.1;
                match FindCloud(rec, pool.cloudID)
                case None => err.None? && record == old(record) && nodes == old(nodes) && calls == old(calls) + 1
                case Some(idx) =>
                  && (err.None? ==> record == Some(RemoveAt(rec, idx))
                                    && CloudNodes(rec[idx]) <= old(nodes).Keys
                                    && nodes == old(nodes) - CloudNodes(rec[idx])
                                    && calls == old(calls) + 2 + |CloudNodes(rec[idx])|)
                  && (err.Some? ==> record == old(record)
                                    && (err == Some(ConfigMapUpdateFailed)
                                        || (err.value.NodeDeleteFailed? && err.value.node in CloudNodes(rec[idx])))
                                    && exists gone :: gone <= CloudNodes(rec[idx]) && nodes == old(nodes) - gone
                                                      && calls == old(calls) + 2 + |gone|)
                  && (err == Some(ConfigMapUpdateFailed) ==>
                        nodes == old(nodes) - CloudNodes(rec[idx])
                        && calls == old(calls) + 2 + |CloudNodes(rec[idx])|)
                  && ((forall c :: c >= old(calls) ==> CallOk(failAt, c))
                      && NoDoubleAllocation(rec) && CloudNodes(rec[idx]) <= old(nodes).Keys
                      ==> err.None?)
    {
      var res := GetCurrentResources();
      if res.None? {
        return Some(ResourcesUnavailable);
      }
      var rec := res.value.1;
      var index := FindCloudIndex(rec, pool.cloudID);
      if index.None? {
        return None;
      }
      var idx := index.value;
      ghost var gone;
      err, gone := DeleteCloudNodes(rec[idx], rec, idx);
      if err.Some? {
        assert gone <= CloudNodes(rec[idx]) && nodes == old(nodes) - gone && calls == old(calls) + 2 + |gone|;
        return;
      }
      var ok := UpdateConfigMap(RemoveAt(rec, idx));
      if !ok {
        assert gone <= CloudNodes(rec[idx]) && nodes == old(nodes) - gone && calls == old(calls) + 2 + |gone|;
        return Some(ConfigMapUpdateFailed);
      }
      return None;
    }
  }
}
