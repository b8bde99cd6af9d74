/**
  Selecting the fastest reachable gateway: filter, fall back to the full pool, probe, keep the
  reachable candidates, sort them stably by latency and take the first.
 */
module Gateway {
  import opened Wrappers

  datatype Outcome = Outcome(latency: int, failed: bool)

  datatype Candidate = Candidate(url: string, latency: int, failed: bool)

  // ---------------------------------------------------------------- candidates

  function Kept(nodes: seq<string>, excluded: set<string>): (kept: seq<string>)
    ensures forall u :: u in kept <==> u in nodes && u !in excluded
  {
    if nodes == [] then []
    else
      var last := nodes[|nodes| - 1];
      Kept(nodes[..|nodes| - 1], excluded) + (if last in excluded then [] else [last])
  }

  /** The candidates of a list are those of its parts, in order; with `KeptAlone` this fixes their order. */
  lemma {:induction false} KeptAppend(a: seq<string>, b: seq<string>, excluded: set<string>)
    ensures Kept(a + b, excluded) == Kept(a, excluded) + Kept(b, excluded)
  {
    if b == [] {
      assert a + b == a;
    } else {
      var n := |b| - 1;
      assert (a + b)[..|a + b| - 1] == a + b[..n];
      KeptAppend(a, b[..n], excluded);
    }
  }

  lemma KeptAlone(u: string, excluded: set<string>)
    ensures Kept([u], excluded) == if u in excluded then [] else [u]
  {
    assert [u][..0] == [];
  }

  /** Every node that is not excluded keeps its place: before it come just the kept ones before it. */
  lemma KeptInPlace(nodes: seq<string>, excluded: set<string>, i: nat)
    requires i < |nodes| && nodes[i] !in excluded
    ensures var k := |Kept(nodes[..i], excluded)|;
            k < |Kept(nodes, excluded)| && Kept(nodes, excluded)[k] == nodes[i]
  {
    assert nodes == nodes[..i] + [nodes[i]] + nodes[i + 1..];
    KeptAppend(nodes[..i] + [nodes[i]], nodes[i + 1..], excluded);
    KeptAppend(nodes[..i], [nodes[i]], excluded);
    KeptAlone(nodes[i], excluded);
  }

  /** The nodes that are probed; the full pool when every node is excluded. */
  function Pool(nodes: seq<string>, excluded: set<string>): seq<string> {
    var kept := Kept(nodes, excluded);
    if kept == [] then nodes else kept
  }

  /** Excluded nodes are probed exactly when all are excluded, and then the whole list is. */
  lemma PoolFallsBackIff(nodes: seq<string>, excluded: set<string>)
    ensures (forall u :: u in nodes ==> u in excluded) ==> Pool(nodes, excluded) == nodes
    ensures (exists u :: u in nodes && u !in excluded) ==>
              forall u :: u in Pool(nodes, excluded) <==> u in nodes && u !in excluded
  {
    if forall u :: u in nodes ==> u in excluded {
      assert Kept(nodes, excluded) == [] by {
        if Kept(nodes, excluded) != [] {
          assert Kept(nodes, excluded)[0] in Kept(nodes, excluded);
        }
      }
    }
  }

  /** What the probes report once all of them are done. */
  function Probed(pool: seq<string>, outcome: nat -> Outcome): seq<Candidate> {
    seq(|pool|, i requires 0 <= i < |pool| => Candidate(pool[i], outcome(i).latency, outcome(i).failed))
  }

  function Reachable(results: seq<Candidate>): seq<Candidate> {
    if results == [] then []
    else
      var last := results[|results| - 1];
      Reachable(results[..|results| - 1]) + (if last.failed then [] else [last])
  }

  /** Position `k` holds the leftmost candidate of least latency among the reachable ones. */
  ghost predicate IsFastest(results: seq<Candidate>, k: nat) {
    && k < |results| && !results[k].failed
    && (forall j :: 0 <= j < |results| && !results[j].failed ==> results[k].latency <= results[j].latency)
    && (forall j :: 0 <= j < k && !results[j].failed ==> results[k].latency < results[j].latency)
  }

  /** The only such position, or the length when nothing is reachable. */
  function Fastest(results: seq<Candidate>): (k: nat)
    ensures k <= |results|
    ensures k < |results| ==> IsFastest(results, k)
    ensures k == |results| <==> forall j :: 0 <= j < |results| ==> results[j].failed
  {
    if results == [] then 0
    else
      var n := |results| - 1;
      var k := Fastest(results[..n]);
      if results[n].failed then (if k < n then k else n + 1)
      else if k < n && results[k].latency <= results[n].latency then k
      else n
  }

  // ---------------------------------------------------------------- the stable sort contract

  /** The elements of one latency, in order. */
  function WithLatency(s: seq<Candidate>, latency: int): seq<Candidate> {
    if s == [] then []
    else (if s[0].latency == latency then [s[0]] else []) + WithLatency(s[1..], latency)
  }

  ghost predicate Sorted(s: seq<Candidate>) {
    forall i, j :: 0 <= i < j < |s| ==> s[i].latency <= s[j].latency
  }

  /** Elements of equal latency appear in the same order, and none is lost or added. */
  ghost predicate SameOrderOfEquals(s: seq<Candidate>, t: seq<Candidate>) {
    forall latency :: WithLatency(s, latency) == WithLatency(t, latency)
  }

  ghost predicate StablySorted(out: seq<Candidate>, s: seq<Candidate>) {
    Sorted(out) && SameOrderOfEquals(out, s)
  }

  lemma {:induction false} WithLatencyAppend(a: seq<Candidate>, b: seq<Candidate>, latency: int)
    ensures WithLatency(a + b, latency) == WithLatency(a, latency) + WithLatency(b, latency)
  {
    if a == [] {
      assert a + b == b;
    } else {
      var head := if a[0].latency == latency then [a[0]] else [];
      WithLatencyAppend(a[1..], b, latency);
      assert (a + b)[0] == a[0] && (a + b)[1..] == a[1..] + b;
      assert head + (WithLatency(a[1..], latency) + WithLatency(b, latency))
             == (head + WithLatency(a[1..], latency)) + WithLatency(b, latency);
    }
  }

  lemma SwapPair(front: seq<Candidate>, x: Candidate, y: Candidate, back: seq<Candidate>, latency: int)
    requires x.latency != y.latency
    ensures WithLatency(front + [x, y] + back, latency) == WithLatency(front + [y, x] + back, latency)
  {
    WithLatencyAppend(front + [x, y], back, latency);
    WithLatencyAppend(front, [x, y], latency);
    WithLatencyAppend(front + [y, x], back, latency);
    WithLatencyAppend(front, [y, x], latency);
    assert [x, y][1..] == [y] && [y, x][1..] == [x];
  }

  function Swapped(s: seq<Candidate>, j: nat): seq<Candidate>
    requires 0 < j < |s|
  {
    s[j - 1 := s[j]][j := s[j - 1]]
  }

  /** Exchanging two neighbours of different latency disturbs no order of equals. */
  lemma SwapKeepsOrderOfEquals(s: seq<Candidate>, j: nat)
    requires 0 < j < |s| && s[j].latency != s[j - 1].latency
    ensures SameOrderOfEquals(Swapped(s, j), s)
  {
    var front, back := s[..j - 1], s[j + 1..];
    assert s == front + [s[j - 1], s[j]] + back;
    assert Swapped(s, j) == front + [s[j], s[j - 1]] + back;
    forall latency ensures WithLatency(Swapped(s, j), latency) == WithLatency(s, latency) {
      SwapPair(front, s[j - 1], s[j], back, latency);
    }
  }

  /** Positions up to `i` are in order, but for what stands at `j`. */
  ghost predicate SortedBut(s: seq<Candidate>, i: nat, j: nat) {
    i < |s| && forall p, q :: 0 <= p < q <= i && q != j ==> s[p].latency <= s[q].latency
  }

  lemma SwapMovesGap(s: seq<Candidate>, i: nat, j: nat)
    requires 0 < j <= i && SortedBut(s, i, j) && s[j].latency < s[j - 1].latency
    ensures SortedBut(Swapped(s, j), i, j - 1)
  {
  }

  /** The insertion sort by which the Go library sorts short slices stably. */
  method SortStable(a: array<Candidate>)
    modifies a
    ensures StablySorted(a[..], old(a[..]))
  {
    for i := 0 to a.Length
      invariant i > 0 ==> SortedBut(a[..], i - 1, i)
      invariant SameOrderOfEquals(a[..], old(a[..]))
    {
      InsertDown(a, i);
    }
  }

  method InsertDown(a: array<Candidate>, i: nat)
    requires i < a.Length && (i > 0 ==> SortedBut(a[..], i - 1, i))
    modifies a
    ensures SortedBut(a[..], i, i + 1)
    ensures SameOrderOfEquals(a[..], old(a[..]))
  {
    var j := i;
    while 0 < j && a[j].latency < a[j - 1].latency
      invariant 0 <= j <= i
      invariant SortedBut(a[..], i, j)
      invariant SameOrderOfEquals(a[..], old(a[..]))
    {
      ghost var was := a[..];
      SwapKeepsOrderOfEquals(was, j);
      SwapMovesGap(was, i, j);
      a[j - 1], a[j] := a[j], a[j - 1];
      assert a[..] == Swapped(was, j);
      j := j - 1;
    }
    GapClosed(a[..], i, j);
  }

  lemma GapClosed(s: seq<Candidate>, i: nat, j: nat)
    requires j <= i && SortedBut(s, i, j) && (j > 0 ==> s[j - 1].latency <= s[j].latency)
    ensures SortedBut(s, i, i + 1)
  {
    forall p, q | 0 <= p < q <= i ensures s[p].latency <= s[q].latency {
      if q == j && p < j - 1 {
        assert s[p].latency <= s[j - 1].latency;
      }
    }
  }

  // ---------------------------------------------------------------- head of the sort

  lemma {:induction false} HeadOfLatency(s: seq<Candidate>, latency: int, k: nat)
    requires k < |s| && s[k].latency == latency
    requires forall j :: 0 <= j < k ==> s[j].latency != latency
    ensures WithLatency(s, latency) != [] && WithLatency(s, latency)[0] == s[k]
  {
    if k > 0 {
      HeadOfLatency(s[1..], latency, k - 1);
    }
  }

  lemma MemberHasRun(s: seq<Candidate>, c: Candidate)
    ensures c in s <==> c in WithLatency(s, c.latency)
  {
  }

  /** Whatever stable sort is used, its first element is the leftmost one of least latency. */
  lemma StableHeadIsLeftmostMinimum(out: seq<Candidate>, s: seq<Candidate>, k: nat)
    requires StablySorted(out, s) && k < |s|
    requires forall j :: 0 <= j < |s| ==> s[k].latency <= s[j].latency
    requires forall j :: 0 <= j < k ==> s[k].latency < s[j].latency
    ensures out != [] && out[0] == s[k]
  {
    var least := s[k].latency;
    HeadOfLatency(s, least, k);
    assert WithLatency(out, least) == WithLatency(s, least);
    MemberHasRun(s, s[k]);
    MemberHasRun(out, s[k]);
    MemberHasRun(out, out[0]);
    MemberHasRun(s, out[0]);
    assert WithLatency(out, out[0].latency) == WithLatency(s, out[0].latency);
    HeadOfLatency(out, least, 0);
  }

  lemma SortedNonEmptiness(out: seq<Candidate>, s: seq<Candidate>)
    requires StablySorted(out, s)
    ensures out == [] <==> s == []
  {
    if out != [] {
      MemberHasRun(out, out[0]);
      assert WithLatency(out, out[0].latency) == WithLatency(s, out[0].latency);
    }
    if s != [] {
      MemberHasRun(s, s[0]);
      assert WithLatency(out, s[0].latency) == WithLatency(s, s[0].latency);
    }
  }

  lemma ReachableIsMember(results: seq<Candidate>, c: Candidate)
    ensures c in Reachable(results) <==> c in results && !c.failed
  {
  }

  lemma {:induction false} ReachableAppend(a: seq<Candidate>, b: seq<Candidate>)
    ensures Reachable(a + b) == Reachable(a) + Reachable(b)
  {
    if b == [] {
      assert a + b == a;
    } else {
      var n := |b| - 1;
      assert (a + b)[..|a + b| - 1] == a + b[..n];
      ReachableAppend(a, b[..n]);
    }
  }

  /** The reachable candidates on both sides of a reachable one. */
  lemma ReachableAround(results: seq<Candidate>, k: nat)
    requires k < |results| && !results[k].failed
    ensures Reachable(results) == Reachable(results[..k]) + [results[k]] + Reachable(results[k + 1..])
  {
    assert results == results[..k] + [results[k]] + results[k + 1..];
    ReachableAppend(results[..k] + [results[k]], results[k + 1..]);
    ReachableAppend(results[..k], [results[k]]);
    assert [results[k]][..0] == [];
  }

  /** The fastest candidate is the leftmost least one of the reachable ones, too. */
  lemma FastestOfReachable(results: seq<Candidate>, k: nat, m: nat)
    requires IsFastest(results, k) && m == |Reachable(results[..k])|
    ensures m < |Reachable(results)| && Reachable(results)[m] == results[k]
    ensures IsFastest(Reachable(results), m)
  {
    var r := Reachable(results);
    ReachableAround(results, k);
    forall j | 0 <= j < |r| ensures !r[j].failed && r[m].latency <= r[j].latency {
      ReachableIsMember(results, r[j]);
    }
    forall j | 0 <= j < m ensures r[m].latency < r[j].latency {
      ReachableIsMember(results[..k], r[j]);
    }
  }

  lemma NoneReachable(results: seq<Candidate>)
    requires forall j :: 0 <= j < |results| ==> results[j].failed
    ensures Reachable(results) == []
  {
  }

  lemma StableHeadIsFastest(r: seq<Candidate>, out: seq<Candidate>, m: nat)
    requires StablySorted(out, r) && IsFastest(r, m)
    requires forall c :: c in r ==> !c.failed
    ensures out != [] && out[0] == r[m]
  {
    StableHeadIsLeftmostMinimum(out, r, m);
  }

  /** The first of the stably sorted reachable candidates is the fastest one. */
  lemma {:induction false} SortedHeadIsFastest(results: seq<Candidate>, out: seq<Candidate>)
    requires StablySorted(out, Reachable(results))
    ensures out == [] <==> Fastest(results) == |results|
    ensures out != [] ==> out[0] == results[Fastest(results)]
  {
    var k := Fastest(results);
    var r := Reachable(results);
    if k < |results| {
      var m := |Reachable(results[..k])|;
      FastestOfReachable(results, k, m);
      forall c | c in r ensures !c.failed {
        ReachableIsMember(results, c);
      }
      StableHeadIsFastest(r, out, m);
    } else {
      NoneReachable(results);
      SortedNonEmptiness(out, r);
    }
  }

  // ---------------------------------------------------------------- selection

  method SelectFastestExcluding(nodes: seq<string>, excluded: set<string>, outcome: nat -> Outcome)
    returns (selected: Option<string>, results: seq<Candidate>)
    ensures results == Probed(Pool(nodes, excluded), outcome)
    ensures selected == Selection(nodes, excluded, outcome)
  {
    var candidates := FilterNodes(nodes, excluded);
    if |candidates| == 0 {
      candidates := candidates + nodes;
    }
    results := Probed(candidates, outcome);
    var sorted := SortReachable(results);
    SortedHeadIsFastest(results, sorted);
    selected := if |sorted| == 0 then None else Some(sorted[0].url);
  }

  method SortReachable(results: seq<Candidate>) returns (sorted: seq<Candidate>)
    ensures StablySorted(sorted, Reachable(results))
  {
    var reachable := CollectReachable(results);
    var a := new Candidate[|reachable|](i requires 0 <= i < |reachable| => reachable[i]);
    assert a[..] == reachable;
    SortStable(a);
    sorted := a[..];
  }

  method FilterNodes(nodes: seq<string>, excluded: set<string>) returns (candidates: seq<string>)
    ensures candidates == Kept(nodes, excluded)
  {
    candidates := [];
    for i := 0 to |nodes|
      invariant candidates == Kept(nodes[..i], excluded)
    {
      assert nodes[..i + 1][..i] == nodes[..i];
      if nodes[i] !in excluded {
        candidates := candidates + [nodes[i]];
      }
    }
    assert nodes[..|nodes|] == nodes;
  }

  method CollectReachable(results: seq<Candidate>) returns (reachable: seq<Candidate>)
    ensures reachable == Reachable(results)
  {
    reachable := [];
    for i := 0 to |results|
      invariant reachable == Reachable(results[..i])
    {
      assert results[..i + 1][..i] == results[..i];
      if !results[i].failed {
        reachable := reachable + [results[i]];
      }
    }
    assert results[..|results|] == results;
  }

  /** The gateway chosen: the fastest of the pool, the leftmost on a tie, none when all fail. */
  function Selection(nodes: seq<string>, excluded: set<string>, outcome: nat -> Outcome): (url: Option<string>)
    ensures url.Some? ==> url.value in Pool(nodes, excluded)
  {
    var pool := Pool(nodes, excluded);
    var k := Fastest(Probed(pool, outcome));
    if k < |pool| then Some(pool[k]) else None
  }
}
