/** The two documents of the "nodelist" config map, already parsed: the catalog of hardware
    profiles and the allocation record, and the free-node resolver over them. */
module Inventory {

  /** A hardware profile: a name and the node names that belong to it, in declared order. */
  datatype HwProfile = HwProfile(name: string, nodes: seq<string>)

  /** The allocation of one cloud (node pool): group name to assigned node names. */
  datatype AllocatedCloud = AllocatedCloud(cloudID: string, nodegroups: map<string, seq<string>>)

  /** The "hwprofiles" document. */
  type Catalog = seq<HwProfile>

  /** The "allocated" document: the list of clouds. */
  type Record = seq<AllocatedCloud>

  /** The nodes assigned to a group; a group with no entry reads as the empty list. */
  function GroupNodes(c: AllocatedCloud, group: string): seq<string> {
    if group in c.nodegroups then c.nodegroups[group] else []
  }

  /** Every node name listed in one of the groups `keys` of one cloud. */
  function ListedIn(c: AllocatedCloud, keys: set<string>): set<string> {
    set g, n | g in keys && g in c.nodegroups && n in c.nodegroups[g] :: n
  }

  /** Every node name listed in some group of one cloud. */
  function CloudNodes(c: AllocatedCloud): set<string> {
    ListedIn(c, c.nodegroups.Keys)
  }

  /** Every node name listed in some group of any cloud of the record. */
  function InUse(rec: Record): set<string> {
    set i, g, n | 0 <= i < |rec| && g in rec[i].nodegroups && n in rec[i].nodegroups[g] :: n
  }

  lemma InUseSnoc(rec: Record, k: nat)
    requires k < |rec|
    ensures InUse(rec[..k + 1]) == InUse(rec[..k]) + CloudNodes(rec[k])
  {
    var a, b := InUse(rec[..k + 1]), InUse(rec[..k]) + CloudNodes(rec[k]);
    forall n | n in a ensures n in b {
      var i, g :| 0 <= i < k + 1 && g in rec[..k + 1][i].nodegroups && n in rec[..k + 1][i].nodegroups[g];
      if i < k { assert rec[..k][i] == rec[i]; }
    }
    forall n | n in b ensures n in a {
      if n in CloudNodes(rec[k]) {
        var g :| g in rec[k].nodegroups && n in rec[k].nodegroups[g];
        assert rec[..k + 1][k] == rec[k];
      } else {
        var i, g :| 0 <= i < k && g in rec[..k][i].nodegroups && n in rec[..k][i].nodegroups[g];
        assert rec[..k + 1][i] == rec[i];
      }
    }
  }

  /** A node listed anywhere in the record is in use. */
  lemma InUseHas(rec: Record, i: nat, g: string, x: nat)
    requires i < |rec| && g in rec[i].nodegroups && x < |rec[i].nodegroups[g]|
    ensures rec[i].nodegroups[g][x] in InUse(rec)
  {
    assert rec[i].nodegroups[g][x] in rec[i].nodegroups[g];
  }

  /** Reference definition: the concatenation, in catalog order, of the node lists of all
      profiles called `name`. */
  function Declared(cat: Catalog, name: string): seq<string> {
    if cat == [] then []
    else Declared(cat[..|cat| - 1], name) + (if cat[|cat| - 1].name == name then cat[|cat| - 1].nodes else [])
  }

  /** The elements of `s` that are not in `used`, in the order of `s`. */
  function Unused(s: seq<string>, used: set<string>): seq<string> {
    if s == [] then []
    else Unused(s[..|s| - 1], used) + (if s[|s| - 1] in used then [] else [s[|s| - 1]])
  }

  /** The free-node resolver as the source computes it: for each profile called `name`, in catalog
      order, its nodes that are not in `used`. */
  function FreeIn(cat: Catalog, used: set<string>, name: string): seq<string> {
    if cat == [] then []
    else FreeIn(cat[..|cat| - 1], used, name) + (if cat[|cat| - 1].name == name then Unused(cat[|cat| - 1].nodes, used) else [])
  }

  /** The free nodes of profile `name` given the record. */
  function FreeNodes(cat: Catalog, rec: Record, name: string): seq<string> {
    FreeIn(cat, InUse(rec), name)
  }

  /** `a` is `b` with some elements left out, the rest kept in order. */
  predicate IsSubsequence<T(==)>(a: seq<T>, b: seq<T>)
    decreases |b|
  {
    if a == [] then true
    else if b == [] then false
    else (a[|a| - 1] == b[|b| - 1] && IsSubsequence(a[..|a| - 1], b[..|b| - 1])) || IsSubsequence(a, b[..|b| - 1])
  }

  lemma {:induction false} UnusedConcat(a: seq<string>, b: seq<string>, used: set<string>)
    ensures Unused(a + b, used) == Unused(a, used) + Unused(b, used)
    decreases |b|
  {
    if b != [] {
      var b' := b[..|b| - 1];
      assert (a + b)[..|a + b| - 1] == a + b';
      UnusedConcat(a, b', used);
    } else {
      assert a + b == a;
    }
  }

  lemma {:induction false} UnusedMember(s: seq<string>, used: set<string>, n: string)
    ensures n in Unused(s, used) <==> n in s && n !in used
  {
    if s != [] {
      UnusedMember(s[..|s| - 1], used, n);
      assert s == s[..|s| - 1] + [s[|s| - 1]];
    }
  }

  lemma {:induction false} UnusedIsSubsequence(s: seq<string>, used: set<string>)
    ensures IsSubsequence(Unused(s, used), s)
  {
    if s != [] {
      var s' := s[..|s| - 1];
      UnusedIsSubsequence(s', used);
      if s[|s| - 1] !in used {
        var u := Unused(s, used);
        assert u[..|u| - 1] == Unused(s', used);
      } else {
        assert Unused(s, used) == Unused(s', used);
        SubsequenceOfPrefix(Unused(s', used), s', s[|s| - 1]);
      }
    }
  }

  lemma {:induction false} SubsequenceOfPrefix<T>(a: seq<T>, b: seq<T>, x: T)
    requires IsSubsequence(a, b)
    ensures IsSubsequence(a, b + [x])
  {
    assert (b + [x])[..|b + [x]| - 1] == b;
  }

  /** The free nodes are exactly the declared nodes that are not in use, in declared order. */
  lemma {:induction false} FreeInIsUnusedDeclared(cat: Catalog, used: set<string>, name: string)
    ensures FreeIn(cat, used, name) == Unused(Declared(cat, name), used)
  {
    if cat != [] {
      var cat' := cat[..|cat| - 1];
      var last := cat[|cat| - 1];
      FreeInIsUnusedDeclared(cat', used, name);
      UnusedConcat(Declared(cat', name), if last.name == name then last.nodes else [], used);
    }
  }

  /** Free-node order: the result is a subsequence of the declared nodes of that profile. */
  lemma FreeNodesInDeclaredOrder(cat: Catalog, rec: Record, name: string)
    ensures IsSubsequence(FreeNodes(cat, rec, name), Declared(cat, name))
  {
    FreeInIsUnusedDeclared(cat, InUse(rec), name);
    UnusedIsSubsequence(Declared(cat, name), InUse(rec));
  }

  /** Free means unused: a node is free iff some profile of that name declares it and no group of
      any cloud lists it. */
  lemma FreeNodesMember(cat: Catalog, rec: Record, name: string, n: string)
    ensures n in FreeNodes(cat, rec, name) <==> n in Declared(cat, name) && n !in InUse(rec)
  {
    FreeInIsUnusedDeclared(cat, InUse(rec), name);
    UnusedMember(Declared(cat, name), InUse(rec), n);
  }

  /** A name no profile carries has no free nodes. */
  lemma {:induction false} FreeNodesOfUnknownProfile(cat: Catalog, used: set<string>, name: string)
    requires forall k :: 0 <= k < |cat| ==> cat[k].name != name
    ensures FreeIn(cat, used, name) == []
  {
    if cat != [] {
      FreeNodesOfUnknownProfile(cat[..|cat| - 1], used, name);
    }
  }

  /** Concatenation in catalog order: one more profile adds its own free nodes at the end. */
  lemma FreeNodesAppendProfile(cat: Catalog, p: HwProfile, rec: Record, name: string)
    ensures FreeNodes(cat + [p], rec, name)
         == FreeNodes(cat, rec, name) + (if p.name == name then Unused(p.nodes, InUse(rec)) else [])
  {
    assert (cat + [p])[..|cat + [p]| - 1] == cat;
  }

  /** The position in `s` of the first unused element: every element before it is in use. */
  lemma {:induction false} UnusedFirst(s: seq<string>, used: set<string>) returns (k: nat)
    requires Unused(s, used) != []
    ensures k < |s| && s[k] == Unused(s, used)[0] && s[k] !in used
    ensures forall j :: 0 <= j < k ==> s[j] in used
  {
    var s' := s[..|s| - 1];
    if Unused(s', used) != [] {
      k := UnusedFirst(s', used);
      assert s[k] == s'[k];
      assert forall j :: 0 <= j < k ==> s[j] == s'[j];
    } else {
      k := |s| - 1;
      forall j | 0 <= j < k ensures s[j] in used {
        assert s[j] == s'[j];
        UnusedMember(s', used, s'[j]);
      }
    }
  }

  /** Determinism of the choice: the first free node is the lowest-index declared node not in use. */
  lemma FirstFreeIsLowestUnused(cat: Catalog, rec: Record, name: string)
    requires FreeNodes(cat, rec, name) != []
    ensures exists k :: 0 <= k < |Declared(cat, name)|
                        && Declared(cat, name)[k] == FreeNodes(cat, rec, name)[0]
                        && Declared(cat, name)[k] !in InUse(rec)
                        && forall j :: 0 <= j < k ==> Declared(cat, name)[j] in InUse(rec)
  {
    FreeInIsUnusedDeclared(cat, InUse(rec), name);
    var k := UnusedFirst(Declared(cat, name), InUse(rec));
  }

  /** No double allocation: every position of every group list of every cloud holds a node name no
      other position holds. */
  ghost predicate NoDoubleAllocation(rec: Record) {
    forall i, g, x, j, h, y ::
      0 <= i < |rec| && g in rec[i].nodegroups && 0 <= x < |rec[i].nodegroups[g]| &&
      0 <= j < |rec| && h in rec[j].nodegroups && 0 <= y < |rec[j].nodegroups[h]| &&
      rec[i].nodegroups[g][x] == rec[j].nodegroups[h][y]
      ==> i == j && g == h && x == y
  }

  /** Under no double allocation, the list of one group holds no name twice and shares no name
      with the groups `keys` of the same cloud, when the group is not one of them. */
  lemma NoDoubleGroupFresh(rec: Record, idx: nat, keys: set<string>, g: string)
    requires NoDoubleAllocation(rec) && idx < |rec| && g in rec[idx].nodegroups && g !in keys
    ensures forall a, b :: 0 <= a < b < |rec[idx].nodegroups[g]| ==> rec[idx].nodegroups[g][a] != rec[idx].nodegroups[g][b]
    ensures forall x :: x in rec[idx].nodegroups[g] ==> x !in ListedIn(rec[idx], keys)
  {
    var l := rec[idx].nodegroups[g];
    forall x | x in l ensures x !in ListedIn(rec[idx], keys) {
      var a :| 0 <= a < |l| && l[a] == x;
      forall h | h in keys && h in rec[idx].nodegroups ensures x !in rec[idx].nodegroups[h] {
        forall y | 0 <= y < |rec[idx].nodegroups[h]| ensures rec[idx].nodegroups[h][y] != l[a] {
        }
      }
    }
  }

  /** One more group adds its listed nodes to the nodes listed in the groups `keys`. */
  lemma ListedInAdd(c: AllocatedCloud, keys: set<string>, g: string)
    requires g in c.nodegroups
    ensures ListedIn(c, keys + {g}) == ListedIn(c, keys) + (set x | x in c.nodegroups[g])
    ensures (set x | x in c.nodegroups[g]) <= CloudNodes(c)
  {
    forall x | x in c.nodegroups[g] ensures x in CloudNodes(c) {
      assert g in c.nodegroups.Keys && x in c.nodegroups[g];
    }
  }
}
