/**
  The connection manager's loop: which gateway is tried next, how long it sleeps in between,
  and what it forgets after a failure. Durations are int64 nanoseconds and wrap around.
 */
module Failover {
  import opened Gateway

  const SECOND := 1_000_000_000
  const TWO_62 := 0x4000_0000_0000_0000
  const TWO_63 := 0x8000_0000_0000_0000
  const TWO_64 := 0x1_0000_0000_0000_0000

  /** The int64 that a Go multiplication leaves. */
  function Wrap64(x: int): int {
    (x + TWO_63) % TWO_64 - TWO_63
  }

  function MinDuration(a: int, b: int): int {
    if a < b then a else b
  }

  /** The variables of the loop, with a record of the attempts and the sleeps so far. */
  datatype Loop = Loop(
    backoff: int,
    failed: set<string>,
    token: string,
    attempts: seq<string>,
    sleeps: seq<int>,
    done: bool
  )

  function StartLoop(token: string): Loop {
    Loop(SECOND, {}, token, [], [], false)
  }

  /** What one turn of the loop meets; `cut` says that the context ended during the sleep. */
  datatype Turn =
    | Cancelled
    | Unreachable(cut: bool)
    | Attempt(url: string, clean: bool, cut: bool)

  function Slept(cap: int, l: Loop, cut: bool): Loop {
    var l1 := l.(sleeps := l.sleeps + [l.backoff]);
    if cut then l1.(done := true) else l1.(backoff := MinDuration(Wrap64(l.backoff * 2), cap))
  }

  function TakeTurn(nodes: seq<string>, cap: int, l: Loop, t: Turn): Loop {
    if l.done then l
    else
      match t
      case Cancelled => l.(done := true)
      case Unreachable(cut) => Slept(cap, l, cut)
      case Attempt(url, clean, cut) =>
        var tried := l.(attempts := l.attempts + [url]);
        if clean then tried.(done := true) else
        var slept := Slept(cap, tried.(failed := tried.failed + {url}, token := ""), cut);
        if !slept.done && |slept.failed| >= |nodes| then slept.(failed := {}) else slept
  }

  /** Attempts go to a node of the pool that selection probes. */
  predicate Possible(nodes: seq<string>, l: Loop, t: Turn) {
    t.Attempt? && !l.done ==> t.url in Pool(nodes, l.failed)
  }

  // ---------------------------------------------------------------- rounds

  ghost predicate Distinct(s: seq<string>) {
    forall i, j :: 0 <= i < j < |s| ==> s[i] != s[j]
  }

  function Elements(s: seq<string>): set<string> {
    set x | x in s
  }

  function Concat(rounds: seq<seq<string>>): seq<string> {
    if rounds == [] then [] else Concat(rounds[..|rounds| - 1]) + rounds[|rounds| - 1]
  }

  /** Complete rounds, each a permutation of the nodes, and a tail that repeats no node. */
  ghost predicate SplitsInto(nodes: seq<string>, attempts: seq<string>, rounds: seq<seq<string>>, tail: seq<string>) {
    && attempts == Concat(rounds) + tail
    && (forall r :: r in rounds ==> multiset(r) == multiset(nodes))
    && Distinct(tail) && Elements(tail) <= Elements(nodes)
  }

  ghost predicate InRounds(nodes: seq<string>, attempts: seq<string>) {
    exists rounds, tail :: SplitsInto(nodes, attempts, rounds, tail)
  }

  /** At the loop head the failed set is the unfinished round, and some node is left to try. */
  ghost predicate RoundInv(nodes: seq<string>, l: Loop, rounds: seq<seq<string>>, tail: seq<string>) {
    && SplitsInto(nodes, l.attempts, rounds, tail)
    && (!l.done ==> l.failed == Elements(tail) && (|nodes| > 0 ==> |tail| < |nodes|))
  }

  lemma {:induction false} DistinctSize(s: seq<string>)
    requires Distinct(s)
    ensures |Elements(s)| == |s|
    ensures forall x :: multiset(s)[x] == if x in s then 1 else 0
  {
    if s != [] {
      var n := |s| - 1;
      DistinctSize(s[..n]);
      assert s == s[..n] + [s[n]];
      assert Elements(s) == Elements(s[..n]) + {s[n]};
    }
  }

  lemma SubsetOfSameSize(a: set<string>, b: set<string>)
    requires a <= b && |a| == |b|
    ensures a == b
  {
    assert |b - a| == |b| - |a|;
  }

  lemma FullRoundIsPermutation(nodes: seq<string>, r: seq<string>)
    requires Distinct(nodes) && Distinct(r) && Elements(r) <= Elements(nodes) && |r| == |nodes|
    ensures multiset(r) == multiset(nodes)
  {
    DistinctSize(nodes);
    DistinctSize(r);
    SubsetOfSameSize(Elements(r), Elements(nodes));
    forall x ensures multiset(r)[x] == multiset(nodes)[x] {
      assert x in r <==> x in Elements(r);
      assert x in nodes <==> x in Elements(nodes);
    }
  }

  /** While nodes remain, selection never needs its fallback and never repeats a failed node. */
  lemma PoolAvoidsFailed(nodes: seq<string>, l: Loop, rounds: seq<seq<string>>, tail: seq<string>)
    requires Distinct(nodes) && RoundInv(nodes, l, rounds, tail) && !l.done && |nodes| > 0
    ensures l.failed < Elements(nodes)
    ensures Kept(nodes, l.failed) != [] && Pool(nodes, l.failed) == Kept(nodes, l.failed)
  {
    DistinctSize(nodes);
    DistinctSize(tail);
    assert |Elements(nodes) - l.failed| == |Elements(nodes)| - |l.failed|;
    var u :| u in Elements(nodes) - l.failed;
    assert u in Kept(nodes, l.failed);
  }

  lemma TailGrows(nodes: seq<string>, attempts: seq<string>, rounds: seq<seq<string>>, tail: seq<string>, url: string)
    requires SplitsInto(nodes, attempts, rounds, tail) && url in nodes && url !in tail
    ensures SplitsInto(nodes, attempts + [url], rounds, tail + [url])
    ensures Elements(tail + [url]) == Elements(tail) + {url}
  {
    assert attempts + [url] == Concat(rounds) + (tail + [url]);
    assert url in Elements(nodes);
  }

  lemma TailCompletes(nodes: seq<string>, attempts: seq<string>, rounds: seq<seq<string>>, tail: seq<string>)
    requires Distinct(nodes) && SplitsInto(nodes, attempts, rounds, tail) && |tail| == |nodes|
    ensures SplitsInto(nodes, attempts, rounds + [tail], [])
  {
    FullRoundIsPermutation(nodes, tail);
    assert (rounds + [tail])[..|rounds|] == rounds;
    assert attempts == Concat(rounds + [tail]) + [];
  }

  lemma TurnKeepsRounds(nodes: seq<string>, cap: int, l: Loop, t: Turn, rounds: seq<seq<string>>, tail: seq<string>)
      returns (rounds': seq<seq<string>>, tail': seq<string>)
    requires Distinct(nodes) && RoundInv(nodes, l, rounds, tail) && Possible(nodes, l, t)
    ensures RoundInv(nodes, TakeTurn(nodes, cap, l, t), rounds', tail')
  {
    rounds', tail' := rounds, tail;
    if t.Attempt? && !l.done {
      AttemptIsNew(nodes, l, t.url, rounds, tail);
      TailGrows(nodes, l.attempts, rounds, tail, t.url);
      tail' := tail + [t.url];
      DistinctSize(tail');
      if !t.clean && !t.cut && |tail'| >= |nodes| {
        TailCompletes(nodes, l.attempts + [t.url], rounds, tail');
        rounds', tail' := rounds + [tail'], [];
      }
    }
  }

  lemma AttemptIsNew(nodes: seq<string>, l: Loop, url: string, rounds: seq<seq<string>>, tail: seq<string>)
    requires Distinct(nodes) && RoundInv(nodes, l, rounds, tail) && !l.done
    requires url in Pool(nodes, l.failed)
    ensures url in nodes && url !in tail && |tail| < |nodes|
  {
    if |nodes| > 0 {
      PoolAvoidsFailed(nodes, l, rounds, tail);
      assert url !in Elements(tail);
    }
  }

  ghost predicate PossibleRun(nodes: seq<string>, cap: int, l: Loop, turns: seq<Turn>)
  {
    forall i :: 0 <= i < |turns| ==> Possible(nodes, RunLoop(nodes, cap, l, turns[..i]), turns[i])
  }

  function RunLoop(nodes: seq<string>, cap: int, l: Loop, turns: seq<Turn>): Loop {
    if turns == [] then l
    else TakeTurn(nodes, cap, RunLoop(nodes, cap, l, turns[..|turns| - 1]), turns[|turns| - 1])
  }

  lemma PrefixIsPossible(nodes: seq<string>, cap: int, l: Loop, turns: seq<Turn>)
    requires PossibleRun(nodes, cap, l, turns) && turns != []
    ensures PossibleRun(nodes, cap, l, turns[..|turns| - 1])
    ensures Possible(nodes, RunLoop(nodes, cap, l, turns[..|turns| - 1]), turns[|turns| - 1])
  {
    var front := turns[..|turns| - 1];
    forall i | 0 <= i < |front| ensures Possible(nodes, RunLoop(nodes, cap, l, front[..i]), front[i]) {
      assert front[..i] == turns[..i];
    }
  }

  lemma {:induction false} RunKeepsRounds(nodes: seq<string>, cap: int, token: string, turns: seq<Turn>)
      returns (rounds: seq<seq<string>>, tail: seq<string>)
    requires Distinct(nodes) && PossibleRun(nodes, cap, StartLoop(token), turns)
    ensures RoundInv(nodes, RunLoop(nodes, cap, StartLoop(token), turns), rounds, tail)
  {
    if turns == [] {
      rounds, tail := [], [];
    } else {
      var front := turns[..|turns| - 1];
      PrefixIsPossible(nodes, cap, StartLoop(token), turns);
      rounds, tail := RunKeepsRounds(nodes, cap, token, front);
      rounds, tail := TurnKeepsRounds(nodes, cap, RunLoop(nodes, cap, StartLoop(token), front),
                                      turns[|turns| - 1], rounds, tail);
    }
  }

  /** Main result: whatever is reachable and however connections end, attempts form rounds. */
  lemma {:induction false} AttemptsFormRounds(nodes: seq<string>, cap: int, token: string, turns: seq<Turn>)
    requires Distinct(nodes) && PossibleRun(nodes, cap, StartLoop(token), turns)
    ensures var l := RunLoop(nodes, cap, StartLoop(token), turns);
            && InRounds(nodes, l.attempts)
            && (!l.done && nodes != [] ==> l.failed < Elements(nodes) && Kept(nodes, l.failed) != [])
  {
    var rounds, tail := RunKeepsRounds(nodes, cap, token, turns);
    var l := RunLoop(nodes, cap, StartLoop(token), turns);
    if !l.done && nodes != [] {
      PoolAvoidsFailed(nodes, l, rounds, tail);
    }
  }

  // ---------------------------------------------------------------- exactly when rounds hold

  lemma RunOneMore(nodes: seq<string>, cap: int, l: Loop, turns: seq<Turn>, t: Turn)
    requires PossibleRun(nodes, cap, l, turns) && Possible(nodes, RunLoop(nodes, cap, l, turns), t)
    ensures PossibleRun(nodes, cap, l, turns + [t])
    ensures RunLoop(nodes, cap, l, turns + [t]) == TakeTurn(nodes, cap, RunLoop(nodes, cap, l, turns), t)
  {
    var more := turns + [t];
    assert more[..|turns|] == turns;
    forall i | 0 <= i < |more| ensures Possible(nodes, RunLoop(nodes, cap, l, more[..i]), more[i]) {
      if i < |turns| {
        assert more[..i] == turns[..i];
      }
    }
  }

  /** Each node once, in the order of first appearance. */
  function Once(nodes: seq<string>): (es: seq<string>)
    ensures |es| <= |nodes|
    ensures forall u :: u in es <==> u in nodes
  {
    if nodes == [] then []
    else
      var front, last := nodes[..|nodes| - 1], nodes[|nodes| - 1];
      Once(front) + (if last in front then [] else [last])
  }

  lemma {:induction false} OnceIsDistinct(nodes: seq<string>)
    ensures Distinct(Once(nodes))
    ensures |Once(nodes)| == |nodes| <==> Distinct(nodes)
  {
    if nodes != [] {
      var front, last := nodes[..|nodes| - 1], nodes[|nodes| - 1];
      OnceIsDistinct(front);
      assert Distinct(nodes) <==> Distinct(front) && last !in front;
    }
  }

  lemma RepeatIsNotDistinct(es: seq<string>, x: string)
    requires x in es
    ensures !Distinct(es + [x])
  {
    var i :| 0 <= i < |es| && es[i] == x;
    assert (es + [x])[i] == (es + [x])[|es|];
  }

  /** A failed attempt at a new node that leaves the round unfinished. */
  lemma FailOne(nodes: seq<string>, cap: int, l: Loop, front: seq<string>, x: string)
    requires !l.done && l.failed == Elements(front) && l.attempts == front
    requires Distinct(front + [x]) && |front| + 1 < |nodes| && x in nodes
    ensures Possible(nodes, l, Attempt(x, false, false))
    ensures var l' := TakeTurn(nodes, cap, l, Attempt(x, false, false));
            !l'.done && l'.failed == Elements(front + [x]) && l'.attempts == front + [x]
  {
    DistinctSize(front + [x]);
    assert Elements(front + [x]) == Elements(front) + {x};
    assert x !in front by {
      if x in front {
        RepeatIsNotDistinct(front, x);
      }
    }
    assert x in Kept(nodes, l.failed);
  }

  /** From the start, failing each of some distinct nodes in turn, too few to fill a round. */
  lemma {:induction false} FailEach(nodes: seq<string>, cap: int, token: string, es: seq<string>)
      returns (turns: seq<Turn>)
    requires Distinct(es) && |es| < |nodes| && forall u :: u in es ==> u in nodes
    ensures PossibleRun(nodes, cap, StartLoop(token), turns)
    ensures var l := RunLoop(nodes, cap, StartLoop(token), turns);
            !l.done && l.failed == Elements(es) && l.attempts == es
  {
    turns := [];
    if es != [] {
      var front, last := es[..|es| - 1], es[|es| - 1];
      assert es == front + [last];
      turns := FailEach(nodes, cap, token, front);
      FailOne(nodes, cap, RunLoop(nodes, cap, StartLoop(token), turns), front, last);
      RunOneMore(nodes, cap, StartLoop(token), turns, Attempt(last, false, false));
      turns := turns + [Attempt(last, false, false)];
    }
  }

  lemma NothingKept(nodes: seq<string>, excluded: set<string>)
    requires forall u :: u in nodes ==> u in excluded
    ensures Kept(nodes, excluded) == []
  {
    if u :| u in Kept(nodes, excluded) {
      assert false;
    }
  }

  /** Every node has failed, and the failed set is still smaller than the list of nodes. */
  lemma StaysStuck(nodes: seq<string>, cap: int, l: Loop, x: string)
    requires !Distinct(nodes) && x in nodes && !l.done && l.failed == Elements(nodes)
    ensures Possible(nodes, l, Attempt(x, false, false))
    ensures var l' := TakeTurn(nodes, cap, l, Attempt(x, false, false));
            !l'.done && l'.failed == Elements(nodes) && l'.attempts == l.attempts + [x]
  {
    NothingKept(nodes, l.failed);
    assert l.failed + {x} == l.failed;
    FewerElements(nodes);
  }

  lemma FewerElements(nodes: seq<string>)
    requires !Distinct(nodes)
    ensures Elements(Once(nodes)) == Elements(nodes) && |Elements(nodes)| == |Once(nodes)| < |nodes|
  {
    OnceIsDistinct(nodes);
    DistinctSize(Once(nodes));
  }

  /** With a repeated node the failed set can fill up unnoticed; then one gateway is tried for ever. */
  lemma {:induction false} RepeatedNodeGetsStuck(nodes: seq<string>, cap: int, token: string, x: string, n: nat)
      returns (turns: seq<Turn>)
    requires !Distinct(nodes) && x in nodes
    ensures PossibleRun(nodes, cap, StartLoop(token), turns)
    ensures var l := RunLoop(nodes, cap, StartLoop(token), turns);
            !l.done && l.failed == Elements(nodes) && l.attempts == Once(nodes) + seq(n, _ => x)
  {
    if n == 0 {
      FewerElements(nodes);
      OnceIsDistinct(nodes);
      turns := FailEach(nodes, cap, token, Once(nodes));
      assert Once(nodes) + seq(0, _ => x) == Once(nodes);
    } else {
      turns := RepeatedNodeGetsStuck(nodes, cap, token, x, n - 1);
      StaysStuck(nodes, cap, RunLoop(nodes, cap, StartLoop(token), turns), x);
      RunOneMore(nodes, cap, StartLoop(token), turns, Attempt(x, false, false));
      assert Once(nodes) + seq(n, _ => x) == Once(nodes) + seq(n - 1, _ => x) + [x];
      turns := turns + [Attempt(x, false, false)];
    }
  }

  /** While the loop goes on, some node has not failed. */
  ghost predicate LeavesOne(nodes: seq<string>, l: Loop) {
    !l.done ==> l.failed < Elements(nodes)
  }

  /** In every run the failed set leaves a node to try, exactly when no node is repeated. */
  lemma FailedSetStaysProperIff(nodes: seq<string>, cap: int, token: string)
    requires nodes != []
    ensures (forall turns :: PossibleRun(nodes, cap, StartLoop(token), turns) ==>
               LeavesOne(nodes, RunLoop(nodes, cap, StartLoop(token), turns)))
            <==> Distinct(nodes)
  {
    if Distinct(nodes) {
      forall turns | PossibleRun(nodes, cap, StartLoop(token), turns)
        ensures LeavesOne(nodes, RunLoop(nodes, cap, StartLoop(token), turns))
      {
        AttemptsFormRounds(nodes, cap, token, turns);
      }
    } else {
      var turns := RepeatedNodeGetsStuck(nodes, cap, token, nodes[0], 0);
      assert !LeavesOne(nodes, RunLoop(nodes, cap, StartLoop(token), turns));
    }
  }

  /** Some node that makes a second attempt at it no part of a round. */
  lemma OddOneOut(nodes: seq<string>) returns (x: string)
    requires !Distinct(nodes) && |nodes| > 2
    ensures x in nodes && multiset(Once(nodes) + [x]) != multiset(nodes)
  {
    var es := Once(nodes);
    x := nodes[0];
    if |es| > 1 && multiset(es + [es[0]]) == multiset(nodes) {
      OnceIsDistinct(nodes);
      x := es[1];
      assert es[1] in nodes;
      assert multiset(es + [es[0]])[x] == multiset(es)[x] && multiset(es + [x])[x] == multiset(es)[x] + 1;
    } else if |es| > 1 {
      x := es[0];
      assert es[0] in nodes;
    } else {
      assert |multiset(es + [x])| == |es| + 1 && |multiset(nodes)| == |nodes|;
    }
  }

  /** Too few attempts for two rounds, and one of them repeated: they are one round or none. */
  lemma RepeatIsWholeRound(nodes: seq<string>, es: seq<string>, x: string, rounds: seq<seq<string>>, tail: seq<string>)
    requires x in es && |es| < |nodes| && SplitsInto(nodes, es + [x], rounds, tail)
    ensures multiset(es + [x]) == multiset(nodes)
  {
    RepeatIsNotDistinct(es, x);
    assert rounds == [] ==> tail == es + [x];
    var last := rounds[|rounds| - 1];
    assert last in rounds;
    assert |multiset(last)| == |last| && |multiset(nodes)| == |nodes|;
    assert last == es + [x];
  }

  lemma RepeatIsNoRound(nodes: seq<string>, es: seq<string>, x: string)
    requires x in es && |es| < |nodes| && multiset(es + [x]) != multiset(nodes)
    ensures !InRounds(nodes, es + [x])
  {
    if InRounds(nodes, es + [x]) {
      var rounds, tail :| SplitsInto(nodes, es + [x], rounds, tail);
      RepeatIsWholeRound(nodes, es, x, rounds, tail);
    }
  }

  /** A list that names one node twice: every second attempt ends a round. */
  lemma {:induction false} TwiceTheSame(a: string, attempts: seq<string>)
      returns (rounds: seq<seq<string>>, tail: seq<string>)
    requires forall i :: 0 <= i < |attempts| ==> attempts[i] == a
    ensures SplitsInto([a, a], attempts, rounds, tail)
    decreases |attempts|
  {
    var n := |attempts|;
    if n < 2 {
      rounds, tail := [], attempts;
    } else {
      rounds, tail := TwiceTheSame(a, attempts[2..]);
      rounds := [[a, a]] + rounds;
      ConcatFirst([a, a], rounds[1..]);
      assert attempts == [a, a] + attempts[2..];
    }
  }

  lemma {:induction false} ConcatFirst(r: seq<string>, rounds: seq<seq<string>>)
    ensures Concat([r] + rounds) == r + Concat(rounds)
  {
    if rounds == [] {
      assert ([r] + rounds)[..0] == [];
    } else {
      assert ([r] + rounds)[..|rounds|] == [r] + rounds[..|rounds| - 1];
      ConcatFirst(r, rounds[..|rounds| - 1]);
    }
  }

  lemma {:induction false} AttemptsAreNodes(nodes: seq<string>, cap: int, l: Loop, turns: seq<Turn>)
    requires PossibleRun(nodes, cap, l, turns) && forall u :: u in l.attempts ==> u in nodes
    ensures forall u :: u in RunLoop(nodes, cap, l, turns).attempts ==> u in nodes
  {
    if turns != [] {
      PrefixIsPossible(nodes, cap, l, turns);
      AttemptsAreNodes(nodes, cap, l, turns[..|turns| - 1]);
    }
  }

  lemma ShortListIsTwice(nodes: seq<string>)
    requires |nodes| <= 2 && !Distinct(nodes)
    ensures |nodes| == 2 && nodes == [nodes[0], nodes[0]]
  {
  }

  lemma ShortListsFormRounds(nodes: seq<string>, attempts: seq<string>)
    requires |nodes| <= 2 && !Distinct(nodes) && forall u :: u in attempts ==> u in nodes
    ensures InRounds(nodes, attempts)
  {
    ShortListIsTwice(nodes);
    forall i | 0 <= i < |attempts| ensures attempts[i] == nodes[0] {
      assert attempts[i] in nodes;
    }
    var rounds, tail := TwiceTheSame(nodes[0], attempts);
  }

  /** In every run attempts form rounds, exactly when no node is repeated or there are at most two. */
  lemma AttemptsFormRoundsIff(nodes: seq<string>, cap: int, token: string)
    ensures (forall turns :: PossibleRun(nodes, cap, StartLoop(token), turns) ==>
               InRounds(nodes, RunLoop(nodes, cap, StartLoop(token), turns).attempts))
            <==> Distinct(nodes) || |nodes| <= 2
  {
    if Distinct(nodes) || |nodes| <= 2 {
      forall turns | PossibleRun(nodes, cap, StartLoop(token), turns)
        ensures InRounds(nodes, RunLoop(nodes, cap, StartLoop(token), turns).attempts)
      {
        if Distinct(nodes) {
          AttemptsFormRounds(nodes, cap, token, turns);
        } else {
          AttemptsAreNodes(nodes, cap, StartLoop(token), turns);
          ShortListsFormRounds(nodes, RunLoop(nodes, cap, StartLoop(token), turns).attempts);
        }
      }
    } else {
      var x := OddOneOut(nodes);
      var turns := RepeatedNodeGetsStuck(nodes, cap, token, x, 1);
      OnceIsDistinct(nodes);
      assert seq(1, _ => x) == [x];
      RepeatIsNoRound(nodes, Once(nodes), x);
    }
  }

  // ---------------------------------------------------------------- backoff

  /** The k-th sleep as the loop computes it. */
  function NthSleep(k: nat, cap: int): int {
    if k == 0 then SECOND else MinDuration(Wrap64(NthSleep(k - 1, cap) * 2), cap)
  }

  function Pow2(k: nat): nat {
    if k == 0 then 1 else 2 * Pow2(k - 1)
  }

  ghost predicate SleepsSoFar(cap: int, l: Loop) {
    && (forall k :: 0 <= k < |l.sleeps| ==> l.sleeps[k] == NthSleep(k, cap))
    && (!l.done ==> l.backoff == NthSleep(|l.sleeps|, cap))
  }

  /** Unreachable and failed rounds share one backoff: sleeps depend on their number alone. */
  lemma {:induction false} SleepsDependOnCountOnly(nodes: seq<string>, cap: int, token: string, turns: seq<Turn>)
    ensures SleepsSoFar(cap, RunLoop(nodes, cap, StartLoop(token), turns))
  {
    if turns != [] {
      var front := turns[..|turns| - 1];
      SleepsDependOnCountOnly(nodes, cap, token, front);
      TurnKeepsSleeps(nodes, cap, RunLoop(nodes, cap, StartLoop(token), front), turns[|turns| - 1]);
    }
  }

  lemma SleptKeepsSleeps(cap: int, l: Loop, cut: bool)
    requires SleepsSoFar(cap, l) && !l.done
    ensures SleepsSoFar(cap, Slept(cap, l, cut))
  {
    assert NthSleep(|l.sleeps| + 1, cap) == MinDuration(Wrap64(NthSleep(|l.sleeps|, cap) * 2), cap);
  }

  lemma TurnKeepsSleeps(nodes: seq<string>, cap: int, l: Loop, t: Turn)
    requires SleepsSoFar(cap, l)
    ensures SleepsSoFar(cap, TakeTurn(nodes, cap, l, t))
  {
    if !l.done {
      match t
      case Cancelled =>
      case Unreachable(cut) => SleptKeepsSleeps(cap, l, cut);
      case Attempt(url, clean, cut) =>
        SleptKeepsSleeps(cap, l.(attempts := l.attempts + [url], failed := l.failed + {url}, token := ""), cut);
    }
  }

  lemma DoublingFits(b: int)
    requires 0 <= b < TWO_62
    ensures Wrap64(b * 2) == b * 2
  {
  }

  lemma {:induction false} ClosedForm(k: nat, cap: int)
    requires SECOND <= cap < TWO_62
    ensures NthSleep(k, cap) == MinDuration(SECOND * Pow2(k), cap)
    ensures SECOND <= NthSleep(k, cap) <= cap && NthSleep(k, cap) <= NthSleep(k + 1, cap)
  {
    if k > 0 {
      ClosedForm(k - 1, cap);
      DoublingFits(NthSleep(k - 1, cap));
    }
    DoublingFits(NthSleep(k, cap));
  }

  lemma LargePowers()
    ensures Pow2(32) == 0x1_0000_0000 && Pow2(33) == 0x2_0000_0000
  {
    assert Pow2(8) == 256;
    assert Pow2(16) == 65536;
    assert Pow2(24) == 0x100_0000;
    assert Pow2(32) == 0x1_0000_0000;
  }

  ghost predicate HasClosedForm(cap: int) {
    forall k: nat :: NthSleep(k, cap) == MinDuration(SECOND * Pow2(k), cap)
  }

  /** Doubling a sleep of 2^62 ns or more wraps around to a negative one. */
  lemma DoublingOverflows(b: int, cap: int)
    requires TWO_62 <= b < TWO_63 && 0 < cap
    ensures MinDuration(Wrap64(b * 2), cap) < 0
  {
    assert Wrap64(b * 2) == b * 2 - TWO_64;
  }

  lemma {:induction false} PowersGrow(i: nat, j: nat)
    requires i <= j
    ensures Pow2(i) <= Pow2(j)
  {
    if i < j {
      PowersGrow(i, j - 1);
    }
  }

  /** Below a cap of 2^62 ns or more, the first 33 sleeps double undisturbed. */
  lemma {:induction false} UncappedSleep(k: nat, cap: int)
    requires TWO_62 <= cap < TWO_63 && k <= 32
    ensures NthSleep(k, cap) == SECOND * Pow2(k) && 0 < NthSleep(k, cap) < TWO_62
  {
    LargePowers();
    PowersGrow(k, 32);
    PowersGrow(0, k);
    if k > 0 {
      UncappedSleep(k - 1, cap);
      DoublingFits(NthSleep(k - 1, cap));
    }
  }

  /** Under every such cap the 35th sleep is negative, so that it does not pause at all. */
  lemma LargeCapTurnsNegative(cap: int)
    requires TWO_62 <= cap < TWO_63
    ensures NthSleep(34, cap) < 0
  {
    LargePowers();
    UncappedSleep(32, cap);
    DoublingFits(NthSleep(32, cap));
    assert NthSleep(33, cap) == MinDuration(Wrap64(NthSleep(32, cap) * 2), cap);
    DoublingOverflows(NthSleep(33, cap), cap);
    assert NthSleep(34, cap) == MinDuration(Wrap64(NthSleep(33, cap) * 2), cap);
  }

  /** For any int64 cap, the doubling backoff has its closed form exactly from 1s up to below 2^62 ns. */
  lemma ClosedFormIff(cap: int)
    requires -TWO_63 <= cap < TWO_63
    ensures HasClosedForm(cap) <==> SECOND <= cap < TWO_62
  {
    if cap < SECOND {
      assert NthSleep(0, cap) != MinDuration(SECOND * Pow2(0), cap);
    } else if cap < TWO_62 {
      forall k: nat ensures NthSleep(k, cap) == MinDuration(SECOND * Pow2(k), cap) {
        ClosedForm(k, cap);
      }
    } else {
      LargeCapTurnsNegative(cap);
      assert HasClosedForm(cap) ==> NthSleep(34, cap) == MinDuration(SECOND * Pow2(34), cap);
    }
  }

  /** No sleep after the first pauses exactly when the cap is no positive duration. */
  lemma NeverPausesIff(cap: int)
    ensures (forall k: nat :: k > 0 ==> NthSleep(k, cap) <= 0) <==> cap <= 0
  {
    if cap > 0 {
      DoublingFits(SECOND);
      assert NthSleep(1, cap) == MinDuration(Wrap64(NthSleep(0, cap) * 2), cap);
    }
  }

  lemma {:induction false} SmallCapSleeps(k: nat, cap: int)
    requires 0 < cap < SECOND && k > 0
    ensures NthSleep(k, cap) == cap
  {
    if k > 1 {
      SmallCapSleeps(k - 1, cap);
    }
    DoublingFits(NthSleep(k - 1, cap));
  }

  /** Every sleep pauses exactly when the cap is positive and below 2^62 ns. */
  lemma AlwaysPausesIff(cap: int)
    requires -TWO_63 <= cap < TWO_63
    ensures (forall k: nat :: NthSleep(k, cap) > 0) <==> 0 < cap < TWO_62
  {
    if cap <= 0 {
      assert NthSleep(1, cap) <= cap;
    } else if cap < TWO_62 {
      forall k: nat ensures NthSleep(k, cap) > 0 {
        if cap >= SECOND {
          ClosedForm(k, cap);
        } else if k > 0 {
          SmallCapSleeps(k, cap);
        }
      }
    } else {
      LargeCapTurnsNegative(cap);
    }
  }
}
