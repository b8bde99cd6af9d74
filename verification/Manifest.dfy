/**
  The plugin installation manifest as a list, and the two edits the secret store
  makes to it: replace-or-append on install and an in-place filter on remove.
 */
module Manifest {
  import opened Wrappers

  datatype Installation = Installation(pluginId: string, slug: string, version: string)

  ghost predicate UniqueIds(list: seq<Installation>) {
    forall i, j :: 0 <= i < j < |list| ==> list[i].pluginId != list[j].pluginId
  }

  /** Position of the first entry for `id`, or the length when there is none. */
  function IndexOf(list: seq<Installation>, id: string): (k: nat)
    ensures k <= |list|
    ensures forall i :: 0 <= i < k ==> list[i].pluginId != id
    ensures k < |list| ==> list[k].pluginId == id
  {
    if list == [] then 0
    else if list[0].pluginId == id then 0
    else 1 + IndexOf(list[1..], id)
  }

  /** The manifest read as a map from plugin id to installation. */
  function Lookup(list: seq<Installation>, id: string): Option<Installation> {
    var k := IndexOf(list, id);
    if k < |list| then Some(list[k]) else None
  }

  predicate Has(list: seq<Installation>, id: string) {
    Lookup(list, id).Some?
  }

  /** The list after an installation is saved. */
  function Upsert(list: seq<Installation>, e: Installation): seq<Installation> {
    var k := IndexOf(list, e.pluginId);
    if k < |list| then list[k := e] else list + [e]
  }

  /** The list after every entry for `id` has been filtered out. */
  function Without(list: seq<Installation>, id: string): seq<Installation> {
    if list == [] then []
    else
      var last := list[|list| - 1];
      Without(list[..|list| - 1], id) + (if last.pluginId == id then [] else [last])
  }

  // ---------------------------------------------------------------- the two loops

  /** The search loop of SaveInstallation: it overwrites one slice element and stops. */
  method ReplaceInPlace(a: array<Installation>, e: Installation) returns (replaced: bool)
    modifies a
    ensures replaced == Has(old(a[..]), e.pluginId)
    ensures replaced ==> a[..] == Upsert(old(a[..]), e)
    ensures !replaced ==> a[..] == old(a[..]) && old(a[..]) + [e] == Upsert(old(a[..]), e)
  {
    replaced := false;
    var i := 0;
    while i < a.Length
      invariant 0 <= i <= a.Length
      invariant !replaced && a[..] == old(a[..])
      invariant forall k :: 0 <= k < i ==> a[k].pluginId != e.pluginId
    {
      if a[i].pluginId == e.pluginId {
        FirstIsIndexOf(a[..], e.pluginId, i);
        a[i] := e;
        replaced := true;
        return;
      }
      i := i + 1;
    }
    FirstIsIndexOf(a[..], e.pluginId, a.Length);
  }

  /**
    The filter loop of DeleteInstallation: `filtered` shares the backing array of
    `installations`, so kept entries are written over entries already visited.
    The last invariant says that no unread entry is ever overwritten.
   */
  method FilterInPlace(a: array<Installation>, id: string) returns (n: nat)
    modifies a
    ensures n <= a.Length && a[..n] == Without(old(a[..]), id)
    ensures n == a.Length <==> !Has(old(a[..]), id)
  {
    ghost var list := a[..];
    n := 0;
    for i := 0 to a.Length
      invariant n <= i
      invariant a[..n] == Without(list[..i], id)
      invariant forall k :: i <= k < a.Length ==> a[k] == list[k]
    {
      var e := a[i];
      assert list[..i + 1][..i] == list[..i];
      ghost var kept := a[..n];
      if e.pluginId != id {
        a[n] := e;
        n := n + 1;
        assert a[..n] == kept + [e];
      }
    }
    assert list[..a.Length] == list;
    WithoutLength(list, id);
  }

  lemma {:induction false} WithoutLength(list: seq<Installation>, id: string)
    ensures |Without(list, id)| <= |list|
    ensures |Without(list, id)| == |list| <==> forall i :: 0 <= i < |list| ==> list[i].pluginId != id
  {
    if list != [] {
      var front := list[..|list| - 1];
      WithoutLength(front, id);
      assert forall i :: 0 <= i < |front| ==> front[i] == list[i];
    }
  }

  // ---------------------------------------------------------------- ordered-map laws

  /** A position that is first for `id` is the one IndexOf returns. */
  lemma FirstIsIndexOf(list: seq<Installation>, id: string, k: nat)
    requires k <= |list|
    requires forall i :: 0 <= i < k ==> list[i].pluginId != id
    requires k < |list| ==> list[k].pluginId == id
    ensures IndexOf(list, id) == k
  {
  }

  /** With unique ids, the entries of the list are exactly what Lookup finds. */
  lemma LookupIsMembership(list: seq<Installation>, e: Installation)
    requires UniqueIds(list)
    ensures e in list <==> Lookup(list, e.pluginId) == Some(e)
  {
    if e in list {
      var i :| 0 <= i < |list| && list[i] == e;
      FirstIsIndexOf(list, e.pluginId, i);
    }
  }

  /** Saving an installation is map update; its position is kept, or the end is used. */
  lemma UpsertIsMapUpdate(list: seq<Installation>, e: Installation, id: string)
    requires UniqueIds(list)
    ensures UniqueIds(Upsert(list, e))
    ensures Lookup(Upsert(list, e), id) == if id == e.pluginId then Some(e) else Lookup(list, id)
    ensures if Has(list, e.pluginId)
            then |Upsert(list, e)| == |list| && IndexOf(Upsert(list, e), id) == IndexOf(list, id)
            else Upsert(list, e) == list + [e]
  {
    var k := IndexOf(list, e.pluginId);
    var after := Upsert(list, e);
    if id == e.pluginId {
      FirstIsIndexOf(after, id, k);
    } else {
      var j := IndexOf(list, id);
      FirstIsIndexOf(after, id, if j < |list| then j else |after|);
    }
  }

  /** The list with position `k` cut out. */
  function Cut(list: seq<Installation>, k: nat): (after: seq<Installation>)
    requires k < |list|
    ensures |after| == |list| - 1
    ensures forall i :: 0 <= i < |after| ==> after[i] == list[if i < k then i else i + 1]
  {
    list[..k] + list[k + 1..]
  }

  lemma {:induction false} WithoutAbsent(list: seq<Installation>, id: string)
    requires forall i :: 0 <= i < |list| ==> list[i].pluginId != id
    ensures Without(list, id) == list
  {
    if list != [] {
      var n := |list| - 1;
      WithoutAbsent(list[..n], id);
      assert list == list[..n] + [list[n]];
    }
  }

  /** Filtering out the only entry for `id` cuts it out and keeps the order of the rest. */
  lemma {:induction false} WithoutCutsOne(list: seq<Installation>, id: string, k: nat)
    requires UniqueIds(list) && k < |list| && list[k].pluginId == id
    ensures Without(list, id) == Cut(list, k)
  {
    var n := |list| - 1;
    if k < n {
      WithoutCutsOne(list[..n], id, k);
      assert Cut(list, k) == Cut(list[..n], k) + [list[n]];
    } else {
      WithoutAbsent(list[..n], id);
      assert Cut(list, n) == list[..n];
    }
  }

  lemma CutKeepsOthers(list: seq<Installation>, k: nat, other: string)
    requires UniqueIds(list) && k < |list|
    ensures UniqueIds(Cut(list, k))
    ensures Lookup(Cut(list, k), other) == if other == list[k].pluginId then None else Lookup(list, other)
  {
    var j := IndexOf(list, other);
    FirstIsIndexOf(Cut(list, k), other,
                   if j == k || j == |list| then |list| - 1 else if j < k then j else j - 1);
  }

  /** Deleting an installation is map removal, and it keeps the order of the others. */
  lemma {:induction false} WithoutIsMapRemoval(list: seq<Installation>, id: string, other: string)
    requires UniqueIds(list)
    ensures UniqueIds(Without(list, id))
    ensures Lookup(Without(list, id), other) == if other == id then None else Lookup(list, other)
    ensures Without(list, id) == if Has(list, id) then Cut(list, IndexOf(list, id)) else list
  {
    var k := IndexOf(list, id);
    if k < |list| {
      WithoutCutsOne(list, id, k);
      CutKeepsOthers(list, k, other);
    } else {
      WithoutAbsent(list, id);
    }
  }
}
