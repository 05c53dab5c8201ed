/** The wave scheduler: which packages of a run may be built together, and in what order. */
module Waves {

  datatype Meta = Meta(pkgname: string, isAny: bool, depends: seq<string>)

  /** The packages of a run, by directory name. */
  type Packages = map<string, Meta>

  /** Which directory provides a package name. */
  type Provided = map<string, string>

  datatype Wave = Wave(anyArch: set<string>, compiled: set<string>)

  datatype Schedule =
    | Scheduled(waves: seq<Wave>)
    | CycleAmong(directories: set<string>)

  /** Every package name of the run has a directory of that package, and no other name has. */
  predicate Provides(ps: Packages, pv: Provided)
  {
    && (forall n :: n in ps ==> ps[n].pkgname in pv)
    && (forall d :: d in pv ==> pv[d] in ps && ps[pv[d]].pkgname == d)
  }

  /** The directories of this run that hold a package back. */
  function Needs(ps: Packages, pv: Provided, n: string): set<string>
    requires n in ps
  {
    set d | d in ps[n].depends && d in pv && pv[d] != n :: pv[d]
  }

  function Released(ps: Packages, done: set<string>): set<string>
  {
    set n | n in done && n in ps :: ps[n].pkgname
  }

  /** What may be built once these are. */
  function Ready(ps: Packages, pv: Provided, done: set<string>): set<string>
  {
    set n | n in ps && Needs(ps, pv, n) <= Released(ps, done)
  }

  /** The packages built after k waves. */
  function Done(ps: Packages, pv: Provided, k: nat): set<string>
  {
    if k == 0 then {} else Ready(ps, pv, Done(ps, pv, k - 1))
  }

  ghost predicate NeverDone(ps: Packages, pv: Provided, n: string)
  {
    forall k: nat :: n !in Done(ps, pv, k)
  }

  /** Where no two directories have packages of one name, those that hold a package back are
      the others whose package it depends on; never its own. */
  lemma HeldBackBy(ps: Packages, pv: Provided, n: string, m: string)
    requires Provides(ps, pv) && n in ps && m in ps
    requires forall k :: k in ps && ps[k].pkgname == ps[m].pkgname ==> k == m
    ensures m in Needs(ps, pv, n) <==> m != n && ps[m].pkgname in ps[n].depends
  {
    assert pv[ps[m].pkgname] == m;
  }

  /** A package that depends on nothing in the run but itself is built first. */
  lemma OwnNameHoldsNothingBack(ps: Packages, pv: Provided, n: string)
    requires Provides(ps, pv) && n in ps
    requires forall d :: d in ps[n].depends && d in pv ==> pv[d] == n
    ensures n in Done(ps, pv, 1)
  {
    InDone(ps, pv, n, 0);
    assert Needs(ps, pv, n) == {};
  }

  lemma DoneNext(ps: Packages, pv: Provided, k: nat)
    ensures Done(ps, pv, 0) == {} && Done(ps, pv, k + 1) == Ready(ps, pv, Done(ps, pv, k))
  {
    hide Ready;
  }

  lemma InReady(ps: Packages, pv: Provided, done: set<string>, n: string)
    ensures n in Ready(ps, pv, done) <==> n in ps && Needs(ps, pv, n) <= Released(ps, done)
  {
    hide Needs, Released;
  }

  lemma InDone(ps: Packages, pv: Provided, n: string, k: nat)
    ensures n !in Done(ps, pv, 0)
    ensures n in Done(ps, pv, k + 1) <==> n in ps && Needs(ps, pv, n) <= Released(ps, Done(ps, pv, k))
  {
    DoneNext(ps, pv, k);
    InReady(ps, pv, Done(ps, pv, k), n);
    hide *;
  }

  // ----- the loop -----

  /** The directories in the order the dictionary has them. */
  ghost predicate IsOrder(ps: Packages, order: seq<string>)
  {
    && (forall n :: n in order <==> n in ps)
    && (forall i, j :: 0 <= i < j < |order| ==> order[i] != order[j])
  }

  /** The last directory that has a package name provides it. */
  ghost predicate LastProvides(ps: Packages, order: seq<string>, pv: Provided)
    requires forall n :: n in order ==> n in ps
  {
    forall d :: d in pv ==> LastHas(ps, order, d, pv[d])
  }

  ghost predicate LastHas(ps: Packages, order: seq<string>, d: string, n: string)
    requires forall m :: m in order ==> m in ps
  {
    exists i :: (
      0 <= i < |order| && order[i] == n && forall j :: i < j < |order| ==> ps[order[j]].pkgname != d)
  }

  method Index(ps: Packages, order: seq<string>) returns (pv: Provided)
    requires IsOrder(ps, order)
    ensures Provides(ps, pv) && LastProvides(ps, order, pv)
  {
    pv := map[];
    for i := 0 to |order|
      invariant forall k :: 0 <= k < i ==> ps[order[k]].pkgname in pv
      invariant forall d :: d in pv ==> pv[d] in ps && ps[pv[d]].pkgname == d
      invariant forall d :: d in pv ==> LastHas(ps, order[..i], d, pv[d])
    {
      assert order[i] in ps;
      hide LastHas;
      forall d | d in pv && ps[order[i]].pkgname != d ensures LastHas(ps, order[..i + 1], d, pv[d]) {
        LastStays(ps, order, i, d, pv[d]);
      }
      LastIsNew(ps, order, i);
      pv := pv[ps[order[i]].pkgname := order[i]];
    }
    assert order[..|order|] == order;
  }

  lemma LastStays(ps: Packages, order: seq<string>, i: nat, d: string, n: string)
    requires i < |order| && forall m :: m in order ==> m in ps
    requires LastHas(ps, order[..i], d, n) && ps[order[i]].pkgname != d
    ensures LastHas(ps, order[..i + 1], d, n)
  {
    var before, now := order[..i], order[..i + 1];
    var k :| 0 <= k < i && before[k] == n && forall j :: k < j < i ==> ps[before[j]].pkgname != d;
    assert now == before + [order[i]];
  }

  lemma LastIsNew(ps: Packages, order: seq<string>, i: nat)
    requires i < |order| && forall m :: m in order ==> m in ps
    ensures LastHas(ps, order[..i + 1], ps[order[i]].pkgname, order[i])
  {
    assert order[..i + 1][i] == order[i];
  }

  predicate IsWave(ps: Packages, wave: Wave, members: set<string>)
  {
    && wave.anyArch == (set n | n in members && n in ps && ps[n].isAny)
    && wave.compiled == (set n | n in members && n in ps && !ps[n].isAny)
  }

  /** The wave of round k: what that round builds, some package at least. */
  predicate IsRound(ps: Packages, pv: Provided, wave: Wave, k: nat)
  {
    Done(ps, pv, k + 1) != Done(ps, pv, k) && IsWave(ps, wave, Done(ps, pv, k + 1) - Done(ps, pv, k))
  }

  /** Wave k holds the packages built in round k and no others; the run is refused over
      the packages that no number of rounds builds. */
  method Plan(ps: Packages, pv: Provided) returns (s: Schedule)
    ensures s.Scheduled? ==> Done(ps, pv, |s.waves|) == ps.Keys
    ensures s.Scheduled? ==> forall k :: 0 <= k < |s.waves| ==> IsRound(ps, pv, s.waves[k], k)
    ensures s.CycleAmong? ==> s.directories != {}
                              && forall n :: n in s.directories <==> n in ps && NeverDone(ps, pv, n)
  {
    var waves: seq<Wave> := [];
    var remaining := ps;
    var built: set<string> := {};
    hide Done, IsWave, IsRound, Needs, Ready, NeverDone, Released;
    DoneNext(ps, pv, 0);
    ReleasedMore(ps, {}, {});
    while remaining.Keys != {}
      invariant remaining == ps - Done(ps, pv, |waves|)
      invariant built == Released(ps, Done(ps, pv, |waves|))
      invariant forall k :: 0 <= k < |waves| ==> IsRound(ps, pv, waves[k], k)
      decreases remaining.Keys
    {
      ghost var k := |waves|;
      var ready := set n | n in remaining && Needs(ps, pv, n) - built == {};
      NextRound(ps, pv, k, ready);
      if ready == {} {
        StuckForGood(ps, pv, k);
        return CycleAmong(remaining.Keys);
      }
      var wave := Wave(set m | m in ready && remaining[m].isAny, set m | m in ready && !remaining[m].isAny);
      NextWave(ps, pv, k, wave, ready);
      waves := waves + [wave];
      ReleasedMore(ps, Done(ps, pv, k), ready);
      built := built + (set m | m in ready :: remaining[m].pkgname);
      remaining := remaining - ready;
    }
    DoneAreHere(ps, pv, |waves|);
    return Scheduled(waves);
  }

  /** What the loop finds ready is what the next round adds. */
  lemma NextRound(ps: Packages, pv: Provided, k: nat, ready: set<string>)
    requires forall n :: n in ready <==>
      n in ps && n !in Done(ps, pv, k) && Needs(ps, pv, n) - Released(ps, Done(ps, pv, k)) == {}
    ensures Done(ps, pv, k + 1) == Done(ps, pv, k) + ready && ready == Done(ps, pv, k + 1) - Done(ps, pv, k)
  {
    DoneGrows(ps, pv, k);
    hide *;
    forall n ensures n in Done(ps, pv, k + 1) <==> n in Done(ps, pv, k) + ready {
      InDone(ps, pv, n, k);
      if n in ps {
        NothingLeft(Needs(ps, pv, n), Released(ps, Done(ps, pv, k)));
      }
    }
  }

  lemma ReleasedMore(ps: Packages, done: set<string>, ready: set<string>)
    requires ready <= ps.Keys
    ensures Released(ps, {}) == {}
    ensures Released(ps, done + ready) == Released(ps, done) + set m | m in ready :: ps[m].pkgname
  {
  }

  lemma NothingLeft(a: set<string>, b: set<string>)
    ensures a - b == {} <==> a <= b
  {
    if a - b == {} {
      forall x | x in a ensures x in b {
        assert x !in a - b;
      }
    }
  }

  lemma NextWave(ps: Packages, pv: Provided, k: nat, wave: Wave, ready: set<string>)
    requires ready == Done(ps, pv, k + 1) - Done(ps, pv, k) && ready != {}
    requires forall n :: n in ready ==> n in ps
    requires wave.anyArch == (set m | m in ready && ps[m].isAny) && wave.compiled == (set m | m in ready && !ps[m].isAny)
    ensures IsRound(ps, pv, wave, k)
  {
    hide Done;
  }

  lemma DoneAreHere(ps: Packages, pv: Provided, k: nat)
    ensures Done(ps, pv, k) <= ps.Keys
  {
    hide Needs;
  }

  lemma ReadyGrows(ps: Packages, pv: Provided, fewer: set<string>, more: set<string>)
    requires fewer <= more
    ensures Ready(ps, pv, fewer) <= Ready(ps, pv, more)
  {
    assert Released(ps, fewer) <= Released(ps, more);
    hide Needs, Released;
  }

  lemma {:induction false} DoneGrows(ps: Packages, pv: Provided, k: nat)
    ensures Done(ps, pv, k) <= Done(ps, pv, k + 1)
    decreases k
  {
    hide Done, Ready;
    DoneNext(ps, pv, k);
    if k > 0 {
      DoneGrows(ps, pv, k - 1);
      DoneNext(ps, pv, k - 1);
      ReadyGrows(ps, pv, Done(ps, pv, k - 1), Done(ps, pv, k));
    }
  }

  lemma {:induction false} DoneStays(ps: Packages, pv: Provided, j: nat, k: nat)
    requires j <= k
    ensures Done(ps, pv, j) <= Done(ps, pv, k)
    decreases k
  {
    hide Done;
    if j < k {
      DoneStays(ps, pv, j, k - 1);
      DoneGrows(ps, pv, k - 1);
    }
  }

  lemma {:induction false} DoneSettles(ps: Packages, pv: Provided, k: nat, j: nat)
    requires Done(ps, pv, k + 1) == Done(ps, pv, k) && k <= j
    ensures Done(ps, pv, j) == Done(ps, pv, k)
    decreases j
  {
    hide Done, Ready;
    if k < j {
      DoneSettles(ps, pv, k, j - 1);
      DoneNext(ps, pv, k);
      DoneNext(ps, pv, j - 1);
    }
  }

  /** A round that builds nothing is followed by none that does. */
  lemma StuckForGood(ps: Packages, pv: Provided, k: nat)
    requires Done(ps, pv, k + 1) == Done(ps, pv, k)
    ensures forall n :: n !in Done(ps, pv, k) <==> NeverDone(ps, pv, n)
  {
    hide Done;
    forall n, j: nat | n !in Done(ps, pv, k) ensures n !in Done(ps, pv, j) {
      if j < k {
        DoneStays(ps, pv, j, k);
      } else {
        DoneSettles(ps, pv, k, j);
      }
    }
  }

  // ----- dependency chains -----

  /** Each directory needs the next. */
  predicate IsChain(ps: Packages, pv: Provided, chain: seq<string>)
  {
    && |chain| > 0
    && (forall i :: 0 <= i < |chain| ==> chain[i] in ps)
    && (forall i :: 0 <= i < |chain| - 1 ==> chain[i + 1] in Needs(ps, pv, chain[i]))
  }

  predicate ChainFrom(ps: Packages, pv: Provided, n: string, chain: seq<string>)
  {
    IsChain(ps, pv, chain) && chain[0] == n
  }

  /** A chain that ends where it has been before. */
  predicate Circles(chain: seq<string>)
  {
    exists i :: 0 <= i < |chain| - 1 && chain[i] == chain[|chain| - 1]
  }

  ghost predicate ReachesCycle(ps: Packages, pv: Provided, n: string)
  {
    exists chain :: ChainFrom(ps, pv, n, chain) && Circles(chain)
  }

  ghost predicate Acyclic(ps: Packages, pv: Provided)
  {
    forall n :: n in ps ==> !ReachesCycle(ps, pv, n)
  }

  /** A directory that holds another back carries the name of its package, and no other
      directory has a package of that name. */
  predicate NamedAfterPackages(ps: Packages, pv: Provided)
  {
    forall n, m :: n in ps && m in Needs(ps, pv, n) ==> Releases(ps, m)
  }

  predicate Releases(ps: Packages, m: string)
  {
    forall q :: q in ps ==> (ps[q].pkgname == m <==> q == m)
  }

  lemma NeedIsReleased(ps: Packages, pv: Provided, n: string, m: string, done: set<string>)
    requires Provides(ps, pv) && NamedAfterPackages(ps, pv) && n in ps && m in Needs(ps, pv, n) && done <= ps.Keys
    ensures m in ps && (m in Released(ps, done) <==> m in done)
  {
    assert Releases(ps, m);
    hide NamedAfterPackages;
  }

  /** A package is built strictly after all it depends on in the run. */
  lemma NeedsComeFirst(ps: Packages, pv: Provided, n: string, m: string, k: nat)
    requires Provides(ps, pv) && NamedAfterPackages(ps, pv)
    requires n in Done(ps, pv, k) && m in Needs(ps, pv, n)
    ensures k > 0 && m in Done(ps, pv, k - 1)
  {
    hide *;
    InDone(ps, pv, n, if k > 0 then k - 1 else 0);
    DoneAreHere(ps, pv, k - 1);
    NeedIsReleased(ps, pv, n, m, Done(ps, pv, k - 1));
  }

  lemma {:induction false} DoneHasNoLongChain(ps: Packages, pv: Provided, n: string, k: nat, chain: seq<string>)
    requires Provides(ps, pv) && NamedAfterPackages(ps, pv) && n in Done(ps, pv, k)
    requires ChainFrom(ps, pv, n, chain)
    ensures |chain| <= k
    decreases k
  {
    hide *;
    InDone(ps, pv, n, if k > 0 then k - 1 else 0);
    if |chain| > 1 {
      FirstStep(ps, pv, n, chain);
      NeedsComeFirst(ps, pv, n, chain[1], k);
      DoneHasNoLongChain(ps, pv, chain[1], k - 1, chain[1..]);
    }
  }

  lemma FirstStep(ps: Packages, pv: Provided, n: string, chain: seq<string>)
    requires ChainFrom(ps, pv, n, chain) && |chain| > 1
    ensures chain[1] in Needs(ps, pv, n) && ChainFrom(ps, pv, chain[1], chain[1..])
  {
    TailIsChain(ps, pv, chain);
    assert chain[0 + 1] in Needs(ps, pv, chain[0]);
    hide Needs;
  }

  lemma TailIsChain(ps: Packages, pv: Provided, chain: seq<string>)
    requires IsChain(ps, pv, chain) && |chain| > 1
    ensures ChainFrom(ps, pv, chain[1], chain[1..])
  {
    var tail := chain[1..];
    forall i | 0 <= i < |tail| - 1 ensures tail[i + 1] in Needs(ps, pv, tail[i]) {
      assert tail[i] == chain[i + 1] && chain[i + 2] in Needs(ps, pv, chain[i + 1]);
    }
    hide Needs;
  }

  lemma ChainGrows(ps: Packages, pv: Provided, n: string, m: string, chain: seq<string>)
    requires n in ps && m in Needs(ps, pv, n) && ChainFrom(ps, pv, m, chain)
    ensures ChainFrom(ps, pv, n, [n] + chain)
  {
    var longer := [n] + chain;
    forall i | 0 <= i < |longer| - 1 ensures longer[i + 1] in Needs(ps, pv, longer[i]) {
      if i > 0 {
        assert chain[i] in Needs(ps, pv, chain[i - 1]);
      }
    }
    hide Needs;
  }

  lemma Alone(ps: Packages, pv: Provided, n: string)
    requires n in ps
    ensures ChainFrom(ps, pv, n, [n])
  {
  }

  lemma {:induction false} LongChain(ps: Packages, pv: Provided, n: string, k: nat) returns (chain: seq<string>)
    requires Provides(ps, pv) && NamedAfterPackages(ps, pv) && n in ps && n !in Done(ps, pv, k)
    ensures ChainFrom(ps, pv, n, chain) && |chain| == k + 1
    decreases k
  {
    hide *;
    if k == 0 {
      chain := [n];
      Alone(ps, pv, n);
    } else {
      InDone(ps, pv, n, k - 1);
      var m :| m in Needs(ps, pv, n) && m !in Released(ps, Done(ps, pv, k - 1));
      DoneAreHere(ps, pv, k - 1);
      NeedIsReleased(ps, pv, n, m, Done(ps, pv, k - 1));
      var rest := LongChain(ps, pv, m, k - 1);
      ChainGrows(ps, pv, n, m, rest);
      chain := [n] + rest;
    }
  }

  /** A package is built in the round numbered by its longest dependency chain: after k
      rounds it is built exactly when no chain from it has more than k packages. */
  lemma BuiltByLongestChain(ps: Packages, pv: Provided, n: string, k: nat)
    requires Provides(ps, pv) && NamedAfterPackages(ps, pv) && n in ps
    ensures n in Done(ps, pv, k) <==> forall chain :: ChainFrom(ps, pv, n, chain) ==> |chain| <= k
  {
    if n in Done(ps, pv, k) {
      forall chain | ChainFrom(ps, pv, n, chain) ensures |chain| <= k {
        DoneHasNoLongChain(ps, pv, n, k, chain);
      }
    } else {
      var chain := LongChain(ps, pv, n, k);
    }
  }

  /** In any order that builds what a package needs in an earlier round, every package is
      built no earlier than here; so no schedule has fewer waves. */
  lemma {:induction false} NoneIsEarlier(ps: Packages, pv: Provided, round: map<string, nat>, n: string)
    requires Provides(ps, pv) && NamedAfterPackages(ps, pv) && round.Keys == ps.Keys && n in ps
    requires forall a, b :: a in ps && b in Needs(ps, pv, a) && b in ps ==> round[b] < round[a]
    ensures n in Done(ps, pv, round[n] + 1)
    decreases round[n]
  {
    hide *;
    var k := round[n];
    InDone(ps, pv, n, k);
    DoneAreHere(ps, pv, k);
    forall m | m in Needs(ps, pv, n) ensures m in Released(ps, Done(ps, pv, k)) {
      NeedIsReleased(ps, pv, n, m, Done(ps, pv, k));
      NoneIsEarlier(ps, pv, round, m);
      DoneStays(ps, pv, round[m] + 1, k);
    }
  }

  lemma FewestWaves(ps: Packages, pv: Provided, round: map<string, nat>, rounds: nat)
    requires Provides(ps, pv) && NamedAfterPackages(ps, pv) && round.Keys == ps.Keys
    requires forall a, b :: a in ps && b in Needs(ps, pv, a) && b in ps ==> round[b] < round[a]
    requires forall n :: n in ps ==> round[n] < rounds
    ensures Done(ps, pv, rounds) == ps.Keys
  {
    hide *;
    forall n | n in ps ensures n in Done(ps, pv, rounds) {
      NoneIsEarlier(ps, pv, round, n);
      DoneStays(ps, pv, round[n] + 1, rounds);
    }
    DoneAreHere(ps, pv, rounds);
  }

  // ----- cycles -----

  lemma {:induction false} CircleNeverDone(ps: Packages, pv: Provided, chain: seq<string>, i: nat, k: nat)
    requires Provides(ps, pv) && NamedAfterPackages(ps, pv) && IsChain(ps, pv, chain) && Circles(chain) && i < |chain|
    ensures chain[i] !in Done(ps, pv, k)
    decreases k
  {
    hide *;
    if chain[i] in Done(ps, pv, k) {
      var at := OnTheWay(ps, pv, chain, i);
      NeedsComeFirst(ps, pv, chain[at], chain[at + 1], k);
      CircleNeverDone(ps, pv, chain, at + 1, k - 1);
      assert false;
    }
  }

  lemma OnTheWay(ps: Packages, pv: Provided, chain: seq<string>, i: nat) returns (at: nat)
    requires IsChain(ps, pv, chain) && Circles(chain) && i < |chain|
    ensures at < |chain| - 1 && chain[at] == chain[i] && chain[at + 1] in Needs(ps, pv, chain[at])
  {
    if i < |chain| - 1 {
      at := i;
    } else {
      at :| 0 <= at < |chain| - 1 && chain[at] == chain[|chain| - 1];
    }
  }

  lemma {:induction false} DistinctFit(s: seq<string>, all: set<string>)
    requires forall x :: x in s ==> x in all
    requires forall i, j :: 0 <= i < j < |s| ==> s[i] != s[j]
    ensures |s| <= |all|
    decreases |s|
  {
    if s != [] {
      forall x | x in s[1..] ensures x in all - {s[0]} {
      }
      DistinctFit(s[1..], all - {s[0]});
    }
  }

  /** A chain longer than the run passes some directory twice. */
  lemma LongChainCircles(ps: Packages, pv: Provided, n: string, chain: seq<string>)
    requires ChainFrom(ps, pv, n, chain) && |chain| > |ps.Keys|
    ensures ReachesCycle(ps, pv, n)
  {
    if forall i, j :: 0 <= i < j < |chain| ==> chain[i] != chain[j] {
      DistinctFit(chain, ps.Keys);
      assert false;
    } else {
      var i, j :| 0 <= i < j < |chain| && chain[i] == chain[j];
      var lasso := chain[..j + 1];
      assert lasso[i] == lasso[|lasso| - 1];
      assert ChainFrom(ps, pv, n, lasso) && Circles(lasso);
    }
  }

  /** A package is never built exactly when it depends, at some remove, on a cycle. */
  lemma NeverDoneMeansCycle(ps: Packages, pv: Provided, n: string)
    requires Provides(ps, pv) && NamedAfterPackages(ps, pv) && n in ps
    ensures NeverDone(ps, pv, n) <==> ReachesCycle(ps, pv, n)
  {
    if chain :| ChainFrom(ps, pv, n, chain) && Circles(chain) {
      forall k: nat ensures n !in Done(ps, pv, k) {
        CircleNeverDone(ps, pv, chain, 0, k);
      }
    }
    if NeverDone(ps, pv, n) {
      var chain := LongChain(ps, pv, n, |ps.Keys|);
      LongChainCircles(ps, pv, n, chain);
    }
  }

  /** A run succeeds exactly when it has no cycle. */
  lemma SucceedsWithoutCycles(ps: Packages, pv: Provided)
    requires Provides(ps, pv) && NamedAfterPackages(ps, pv)
    ensures (exists k: nat :: Done(ps, pv, k) == ps.Keys) <==> Acyclic(ps, pv)
  {
    hide *;
    if Acyclic(ps, pv) {
      var k := |ps.Keys|;
      forall n | n in ps ensures n in Done(ps, pv, k) {
        DoneInTime(ps, pv, n);
      }
      DoneAreHere(ps, pv, k);
      assert Done(ps, pv, k) == ps.Keys;
    } else if k: nat :| Done(ps, pv, k) == ps.Keys {
      AllDoneNoCycle(ps, pv, k);
    }
  }

  lemma DoneInTime(ps: Packages, pv: Provided, n: string)
    requires Provides(ps, pv) && NamedAfterPackages(ps, pv) && Acyclic(ps, pv) && n in ps
    ensures n in Done(ps, pv, |ps.Keys|)
  {
    assert !ReachesCycle(ps, pv, n);
    hide *;
    if n !in Done(ps, pv, |ps.Keys|) {
      var chain := LongChain(ps, pv, n, |ps.Keys|);
      LongChainCircles(ps, pv, n, chain);
    }
  }

  lemma AllDoneNoCycle(ps: Packages, pv: Provided, k: nat)
    requires Provides(ps, pv) && NamedAfterPackages(ps, pv) && Done(ps, pv, k) == ps.Keys
    ensures Acyclic(ps, pv)
  {
    hide Provides, NamedAfterPackages, Done, ReachesCycle;
    forall n | n in ps ensures !ReachesCycle(ps, pv, n) {
      NeverDoneMeansCycle(ps, pv, n);
      assert n in Done(ps, pv, k);
    }
  }

  ghost predicate LongestChain(ps: Packages, pv: Provided, n: string, length: nat)
  {
    && (exists chain :: ChainFrom(ps, pv, n, chain) && |chain| == length)
    && (forall chain :: ChainFrom(ps, pv, n, chain) ==> |chain| <= length)
  }

  /** Wave k is the packages whose longest dependency chain has k + 1 of them. */
  ghost predicate WaveByChains(ps: Packages, pv: Provided, wave: Wave, k: nat)
  {
    forall n :: n in ps ==>
      (n in wave.anyArch <==> ps[n].isAny && LongestChain(ps, pv, n, k + 1))
      && (n in wave.compiled <==> !ps[n].isAny && LongestChain(ps, pv, n, k + 1))
  }

  lemma RoundByLongestChain(ps: Packages, pv: Provided, n: string, k: nat)
    requires Provides(ps, pv) && NamedAfterPackages(ps, pv) && n in ps
    ensures n in Done(ps, pv, k + 1) - Done(ps, pv, k) <==> LongestChain(ps, pv, n, k + 1)
  {
    hide Done, ChainFrom;
    BuiltByLongestChain(ps, pv, n, k);
    BuiltByLongestChain(ps, pv, n, k + 1);
    if n !in Done(ps, pv, k) {
      var chain := LongChain(ps, pv, n, k);
    }
  }

  lemma RoundIsByChains(ps: Packages, pv: Provided, wave: Wave, k: nat)
    requires Provides(ps, pv) && NamedAfterPackages(ps, pv) && IsRound(ps, pv, wave, k)
    ensures WaveByChains(ps, pv, wave, k)
  {
    hide Done, LongestChain, Provides, NamedAfterPackages;
    forall n | n in ps ensures n in Done(ps, pv, k + 1) - Done(ps, pv, k) <==> LongestChain(ps, pv, n, k + 1) {
      RoundByLongestChain(ps, pv, n, k);
    }
  }

  /** The whole of it: a schedule exactly when there is no cycle, each wave by longest
      chain, and otherwise the packages that depend on a cycle. */
  method Discover(ps: Packages, order: seq<string>) returns (pv: Provided, s: Schedule)
    requires IsOrder(ps, order)
    ensures Provides(ps, pv) && LastProvides(ps, order, pv)
    ensures NamedAfterPackages(ps, pv) ==> (s.Scheduled? <==> Acyclic(ps, pv))
    ensures NamedAfterPackages(ps, pv) && s.Scheduled? ==>
      forall k :: 0 <= k < |s.waves| ==> WaveByChains(ps, pv, s.waves[k], k)
    ensures NamedAfterPackages(ps, pv) && s.CycleAmong? ==>
      forall n :: n in s.directories <==> n in ps && ReachesCycle(ps, pv, n)
  {
    hide *;
    OrderIsOfRun(ps, order);
    pv := Index(ps, order);
    s := Plan(ps, pv);
    if NamedAfterPackages(ps, pv) {
      if s.Scheduled? {
        AllDoneNoCycle(ps, pv, |s.waves|);
        forall k | 0 <= k < |s.waves| ensures WaveByChains(ps, pv, s.waves[k], k) {
          RoundIsByChains(ps, pv, s.waves[k], k);
        }
      } else {
        forall n | n in ps ensures NeverDone(ps, pv, n) <==> ReachesCycle(ps, pv, n) {
          NeverDoneMeansCycle(ps, pv, n);
        }
        SomeCycle(ps, pv, s.directories);
      }
    }
  }

  lemma OrderIsOfRun(ps: Packages, order: seq<string>)
    requires IsOrder(ps, order)
    ensures forall n :: n in order ==> n in ps
  {
  }

  lemma SomeCycle(ps: Packages, pv: Provided, names: set<string>)
    requires names != {} && forall n :: n in names ==> n in ps && ReachesCycle(ps, pv, n)
    ensures !Acyclic(ps, pv)
  {
    hide ReachesCycle;
    var n :| n in names;
  }

  // ----- runs that skip what is published -----

  /** The part of the packages that a run has left to build. */
  function Restrict(ps: Packages, keep: set<string>): Packages
  {
    map n | n in ps && n in keep :: ps[n]
  }

  predicate DistinctNames(ps: Packages)
  {
    forall a, b :: a in ps && b in ps && ps[a].pkgname == ps[b].pkgname ==> a == b
  }

  /** The run ends in a schedule, and it builds what a package needs before the package. */
  ghost predicate Delivers(ps: Packages, pv: Provided)
  {
    && (exists k: nat :: Done(ps, pv, k) == ps.Keys)
    && (forall n, m, k: nat :: n in ps && n in Done(ps, pv, k) && m in Needs(ps, pv, n) ==>
          k > 0 && m in Done(ps, pv, k - 1))
  }

  ghost predicate EveryRunDelivers(ps: Packages)
  {
    forall keep, pv :: Provides(Restrict(ps, keep), pv) ==> Delivers(Restrict(ps, keep), pv)
  }

  /** What a smaller run holds back, the whole would. */
  lemma FewerNeeds(ps: Packages, pv: Provided, keep: set<string>, qv: Provided, n: string)
    requires Provides(ps, pv) && DistinctNames(ps) && Provides(Restrict(ps, keep), qv) && n in Restrict(ps, keep)
    ensures n in ps && Needs(Restrict(ps, keep), qv, n) <= Needs(ps, pv, n)
  {
    var sub := Restrict(ps, keep);
    forall d | d in qv ensures d in pv && pv[d] == qv[d] {
      assert sub[qv[d]].pkgname == d && ps[qv[d]].pkgname == d;
    }
    hide Provides, DistinctNames;
  }

  lemma FewerChains(ps: Packages, pv: Provided, keep: set<string>, qv: Provided, chain: seq<string>)
    requires Provides(ps, pv) && DistinctNames(ps) && Provides(Restrict(ps, keep), qv)
    requires IsChain(Restrict(ps, keep), qv, chain)
    ensures IsChain(ps, pv, chain)
  {
    forall i | 0 <= i < |chain| ensures chain[i] in ps {
      FewerNeeds(ps, pv, keep, qv, chain[i]);
    }
    forall i | 0 <= i < |chain| - 1 ensures chain[i + 1] in Needs(ps, pv, chain[i]) {
      FewerNeeds(ps, pv, keep, qv, chain[i]);
      assert chain[i + 1] in Needs(Restrict(ps, keep), qv, chain[i]);
    }
    hide Needs, Provides, DistinctNames, Restrict;
  }

  lemma RestrictDelivers(ps: Packages, pv: Provided, keep: set<string>, qv: Provided)
    requires Provides(ps, pv) && DistinctNames(ps) && Acyclic(ps, pv) && NamedAfterPackages(ps, pv)
    requires Provides(Restrict(ps, keep), qv)
    ensures Delivers(Restrict(ps, keep), qv)
  {
    var sub := Restrict(ps, keep);
    RestrictNamed(ps, pv, keep, qv);
    RestrictAcyclic(ps, pv, keep, qv);
    hide Provides, DistinctNames, Acyclic, NamedAfterPackages, Restrict, Needs, Done;
    SucceedsWithoutCycles(sub, qv);
    forall n, m, k: nat | n in sub && n in Done(sub, qv, k) && m in Needs(sub, qv, n)
      ensures k > 0 && m in Done(sub, qv, k - 1)
    {
      NeedsComeFirst(sub, qv, n, m, k);
    }
  }

  lemma RestrictNamed(ps: Packages, pv: Provided, keep: set<string>, qv: Provided)
    requires Provides(ps, pv) && DistinctNames(ps) && NamedAfterPackages(ps, pv) && Provides(Restrict(ps, keep), qv)
    ensures NamedAfterPackages(Restrict(ps, keep), qv)
  {
    var sub := Restrict(ps, keep);
    forall n, m | n in sub && m in Needs(sub, qv, n) ensures Releases(sub, m) {
      FewerNeeds(ps, pv, keep, qv, n);
      assert Releases(ps, m);
    }
    hide Needs, Provides, DistinctNames, Restrict, Releases;
  }

  lemma RestrictAcyclic(ps: Packages, pv: Provided, keep: set<string>, qv: Provided)
    requires Provides(ps, pv) && DistinctNames(ps) && Acyclic(ps, pv) && Provides(Restrict(ps, keep), qv)
    ensures Acyclic(Restrict(ps, keep), qv)
  {
    var sub := Restrict(ps, keep);
    forall n | n in sub ensures !ReachesCycle(sub, qv, n) {
      FewerNeeds(ps, pv, keep, qv, n);
      assert !ReachesCycle(ps, pv, n);
      if chain :| ChainFrom(sub, qv, n, chain) && Circles(chain) {
        FewerChains(ps, pv, keep, qv, chain);
        assert false;
      }
    }
    hide Needs, Provides, DistinctNames, Restrict;
  }

  /** A run of just a package and what it needs never builds it, if that one's directory is
      not named after its package. */
  lemma MisnamedHoldsBack(ps: Packages, pv: Provided, n: string, m: string) returns (keep: set<string>, qv: Provided)
    requires Provides(ps, pv) && DistinctNames(ps) && n in ps && m in Needs(ps, pv, n)
    requires m in ps && ps[m].pkgname != m
    ensures Provides(Restrict(ps, keep), qv) && !Delivers(Restrict(ps, keep), qv)
  {
    keep := {n, m};
    var sub := Restrict(ps, keep);
    qv := map[ps[n].pkgname := n, ps[m].pkgname := m];
    assert Provides(sub, qv);
    assert m in Needs(sub, qv, n);
    forall k: nat ensures Done(sub, qv, k) != sub.Keys {
      HeldBack(sub, qv, n, m, k);
    }
    hide Done, Needs, Provides;
  }

  lemma {:induction false} HeldBack(ps: Packages, pv: Provided, n: string, m: string, k: nat)
    requires ps.Keys == {n, m} && m in Needs(ps, pv, n) && ps[m].pkgname != m
    ensures n !in Done(ps, pv, k)
    decreases k
  {
    hide Done, Needs;
    InDone(ps, pv, n, if k > 0 then k - 1 else 0);
    if k > 0 {
      HeldBack(ps, pv, n, m, k - 1);
    }
  }

  /** Of an acyclic set of packages with distinct names, every run, whichever of them it
      skips, ends in a schedule that builds needs first exactly when each directory that
      others depend on carries the name of its package. */
  lemma EveryRunDeliversExactlyWhenNamed(ps: Packages, pv: Provided)
    requires Provides(ps, pv) && DistinctNames(ps) && Acyclic(ps, pv)
    ensures EveryRunDelivers(ps) <==> NamedAfterPackages(ps, pv)
  {
    hide Provides, Acyclic, Delivers, Restrict, Needs;
    if NamedAfterPackages(ps, pv) {
      forall keep, qv | Provides(Restrict(ps, keep), qv) ensures Delivers(Restrict(ps, keep), qv) {
        RestrictDelivers(ps, pv, keep, qv);
      }
    } else {
      var n, m :| n in ps && m in Needs(ps, pv, n) && !Releases(ps, m);
      NeedsAreHere(ps, pv, n, m);
      assert ps[m].pkgname != m;
      var keep, qv := MisnamedHoldsBack(ps, pv, n, m);
    }
  }

  lemma NeedsAreHere(ps: Packages, pv: Provided, n: string, m: string)
    requires Provides(ps, pv) && n in ps && m in Needs(ps, pv, n)
    ensures m in ps
  {
  }
}
