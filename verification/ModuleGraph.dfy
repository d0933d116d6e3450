/** Module graphs and chunk arrivals on values: what the webpack runtime should load and run. */
module ModuleGraph {

  type Id = nat

  /** Each module's body as the modules it requires, in order. */
  type Modules = map<Id, seq<Id>>

  /** `p` follows require edges from its first module to its last. */
  ghost predicate IsPath(m: Modules, p: seq<Id>) {
    p != [] && forall i :: 0 <= i < |p| - 1 ==> p[i] in m && p[i + 1] in m[p[i]]
  }

  ghost predicate Reaches(m: Modules, a: Id, b: Id) {
    exists p :: IsPath(m, p) && p[0] == a && p[|p| - 1] == b
  }

  lemma ReachesSelf(m: Modules, a: Id)
    ensures Reaches(m, a, a)
  {
    var p := [a];
    assert IsPath(m, p) && p[0] == a && p[|p| - 1] == a;
  }

  /** One require edge in front of a path. */
  lemma ReachesStep(m: Modules, a: Id, b: Id, c: Id)
    requires a in m && b in m[a] && Reaches(m, b, c)
    ensures Reaches(m, a, c)
  {
    var p :| IsPath(m, p) && p[0] == b && p[|p| - 1] == c;
    var q := [a] + p;
    forall i | 0 <= i < |q| - 1
      ensures q[i] in m && q[i + 1] in m[q[i]]
    {
      if i > 0 {
        assert q[i] == p[i - 1] && q[i + 1] == p[i];
      }
    }
    assert IsPath(m, q) && q[0] == a && q[|q| - 1] == c;
  }

  /** A set of modules that contains whatever its members require. */
  ghost predicate Closed(m: Modules, s: set<Id>) {
    forall x :: x in s ==> x in m && forall y :: y in m[x] ==> y in s
  }

  lemma {:induction false} ClosedPath(m: Modules, s: set<Id>, p: seq<Id>)
    requires Closed(m, s) && IsPath(m, p) && p[0] in s
    ensures p[|p| - 1] in s
    decreases |p|
  {
    if |p| > 1 {
      assert p[1] in m[p[0]];
      var q := p[1..];
      assert IsPath(m, q) by {
        forall i | 0 <= i < |q| - 1
          ensures q[i] in m && q[i + 1] in m[q[i]]
        {
          assert q[i] == p[i + 1] && q[i + 1] == p[i + 2];
        }
      }
      ClosedPath(m, s, q);
    }
  }

  /** A closed set contains everything its members reach. */
  lemma ClosedReaches(m: Modules, s: set<Id>, a: Id, b: Id)
    requires Closed(m, s) && a in s && Reaches(m, a, b)
    ensures b in s
  {
    var p :| IsPath(m, p) && p[0] == a && p[|p| - 1] == b;
    ClosedPath(m, s, p);
  }

  /** Everything reachable from `a` exists. */
  ghost predicate Complete(m: Modules, a: Id) {
    forall b :: Reaches(m, a, b) ==> b in m
  }

  lemma CompleteStep(m: Modules, a: Id, b: Id)
    requires Complete(m, a) && a in m && b in m[a]
    ensures Complete(m, b)
  {
    forall c | Reaches(m, b, c)
      ensures c in m
    {
      ReachesStep(m, a, b, c);
    }
  }

  // ---------------------------------------------------------------- the cache

  /** The cached modules with their `l` flags. */
  type Cache = map<Id, bool>

  /** Each body was executed at most once, and precisely the cached modules' bodies were. */
  ghost predicate Once(executed: seq<Id>, cache: Cache) {
    (forall i, j :: 0 <= i < j < |executed| ==> executed[i] != executed[j]) &&
    (forall x :: x in executed <==> x in cache)
  }

  /** A call of the loader for `id` turned `before` into `after`: old entries are as they were, new
      ones are loaded, closed under requiring, and reachable from `id`. */
  ghost predicate Loads(m: Modules, id: Id, before: Cache, after: Cache) {
    before.Keys <= after.Keys <= m.Keys &&
    (forall x :: x in before ==> after[x] == before[x]) &&
    (forall x :: x in after && x !in before ==> after[x] && (forall y :: y in m[x] ==> y in after) && Reaches(m, id, x))
  }

  lemma LoadsNothing(m: Modules, id: Id, c: Cache)
    requires c.Keys <= m.Keys
    ensures Loads(m, id, c, c)
  {
  }

  /** Loading a requirement `y` of `id`, then the rest. */
  lemma LoadsThen(m: Modules, id: Id, y: Id, a: Cache, b: Cache, c: Cache)
    requires id in m && y in m[id] && Loads(m, y, a, b) && Loads(m, id, b, c)
    ensures Loads(m, id, a, c)
  {
    forall x | x in c && x !in a
      ensures c[x] && (forall z :: z in m[x] ==> z in c) && Reaches(m, id, x)
    {
      if x in b {
        ReachesStep(m, id, y, x);
      }
    }
  }

  /** A module whose requirements have all been loaded is marked as loaded itself. */
  lemma LoadsSelf(m: Modules, id: Id, a: Cache, c: Cache)
    requires id !in a && id in m && Loads(m, id, a[id := false], c)
    requires forall y :: y in m[id] ==> y in c
    ensures Loads(m, id, a, c[id := true])
  {
    ReachesSelf(m, id);
    var d := c[id := true];
    assert d.Keys == c.Keys;
    forall x | x in d && x !in a
      ensures d[x] && (forall y :: y in m[x] ==> y in d) && Reaches(m, id, x)
    {
      assert x == id || x !in a[id := false];
    }
  }

  /** From a closed cache a call loads precisely what is reachable and not there yet. */
  lemma LoadsExactly(m: Modules, id: Id, before: Cache, after: Cache)
    requires Closed(m, before.Keys) && Loads(m, id, before, after) && id in after
    ensures Closed(m, after.Keys)
    ensures forall x :: x in after <==> x in before || Reaches(m, id, x)
  {
    forall x | x in after
      ensures x in m && forall y :: y in m[x] ==> y in after
    {
    }
    forall x | Reaches(m, id, x)
      ensures x in after
    {
      ClosedReaches(m, after.Keys, id, x);
    }
  }

  /** The graph as a loader with this cache follows it: a cached module is returned without a look at its body, which
      an arriving chunk may have replaced. */
  function Uncached(m: Modules, cache: Cache): (g: Modules)
    ensures g.Keys == m.Keys
  {
    map x | x in m :: if x in cache then [] else m[x]
  }

  /** `g` has the bodies that the loader can still come to. */
  ghost predicate Serves(g: Modules, m: Modules, cache: Cache) {
    g.Keys == m.Keys && forall x :: x in m && x !in cache ==> g[x] == m[x]
  }

  lemma UncachedServes(m: Modules, cache: Cache)
    requires cache.Keys <= m.Keys
    ensures Serves(Uncached(m, cache), m, cache) && Closed(Uncached(m, cache), cache.Keys)
  {
  }

  lemma {:induction false} UncachedPath(m: Modules, cache: Cache, p: seq<Id>)
    requires Closed(m, cache.Keys) && IsPath(m, p) && p[|p| - 1] !in cache
    ensures IsPath(Uncached(m, cache), p)
    decreases |p|
  {
    forall i | 0 <= i < |p| - 1
      ensures p[i] in Uncached(m, cache) && p[i + 1] in Uncached(m, cache)[p[i]]
    {
      if p[i] in cache {
        var q := p[i..];
        forall j | 0 <= j < |q| - 1
          ensures q[j] in m && q[j + 1] in m[q[j]]
        {
          assert q[j] == p[i + j] && q[j + 1] == p[i + j + 1];
        }
        ClosedPath(m, cache.Keys, q);
      }
    }
  }

  /** As long as the cache contains what its modules require, leaving their bodies out changes nothing. */
  lemma UncachedReaches(m: Modules, cache: Cache, a: Id, b: Id)
    requires Closed(m, cache.Keys) && b !in cache
    ensures Reaches(Uncached(m, cache), a, b) <==> Reaches(m, a, b)
  {
    if Reaches(m, a, b) {
      var p :| IsPath(m, p) && p[0] == a && p[|p| - 1] == b;
      UncachedPath(m, cache, p);
    }
    if Reaches(Uncached(m, cache), a, b) {
      var p :| IsPath(Uncached(m, cache), p) && p[0] == a && p[|p| - 1] == b;
      assert IsPath(m, p);
    }
  }

  // ---------------------------------------------------------------- chunks and deferred entries

  /** An entry module and the chunks it waits for. */
  datatype Deferred = Deferred(entry: Id, needs: seq<Id>)

  /** One arrival: the chunks it brings and the entries it registers. */
  datatype Arrival = Arrival(chunks: seq<Id>, entries: seq<Deferred>)

  predicate Ready(e: Deferred, loaded: set<Id>) {
    forall c :: c in e.needs ==> c in loaded
  }

  function ReadyOnes(es: seq<Deferred>, loaded: set<Id>): seq<Deferred> {
    if es == [] then [] else (if Ready(es[0], loaded) then [es[0]] else []) + ReadyOnes(es[1..], loaded)
  }

  function WaitingOnes(es: seq<Deferred>, loaded: set<Id>): seq<Deferred> {
    if es == [] then [] else (if Ready(es[0], loaded) then [] else [es[0]]) + WaitingOnes(es[1..], loaded)
  }

  function Chunks(s: seq<Id>): set<Id> {
    set c | c in s
  }

  /** The chunk of the runtime itself, which is loaded from the start. */
  const RUNTIME: Id := 0

  /** The state after a sequence of arrivals: loaded chunks, entries still waiting, entries run. */
  datatype Progress = Progress(loaded: set<Id>, waiting: seq<Deferred>, run: seq<Deferred>)

  /** What one arrival does: its chunks are loaded, its entries join the list, whatever is ready runs. */
  function Arrive(p: Progress, a: Arrival): Progress {
    var loaded, list := p.loaded + Chunks(a.chunks), p.waiting + a.entries;
    Progress(loaded, WaitingOnes(list, loaded), p.run + ReadyOnes(list, loaded))
  }

  const START := Progress({RUNTIME}, [], [])

  function ArriveAll(p: Progress, t: seq<Arrival>): Progress {
    if t == [] then p else Arrive(ArriveAll(p, t[..|t| - 1]), t[|t| - 1])
  }

  /** The chunks loaded by then. */
  function AllChunks(t: seq<Arrival>): set<Id> {
    if t == [] then {RUNTIME} else AllChunks(t[..|t| - 1]) + Chunks(t[|t| - 1].chunks)
  }

  function AllEntries(t: seq<Arrival>): seq<Deferred> {
    if t == [] then [] else AllEntries(t[..|t| - 1]) + t[|t| - 1].entries
  }

  lemma {:induction false} SplitSum(a: seq<Deferred>, b: seq<Deferred>, loaded: set<Id>)
    ensures ReadyOnes(a + b, loaded) == ReadyOnes(a, loaded) + ReadyOnes(b, loaded)
    ensures WaitingOnes(a + b, loaded) == WaitingOnes(a, loaded) + WaitingOnes(b, loaded)
  {
    if a == [] {
      assert a + b == b;
    } else {
      assert (a + b)[1..] == a[1..] + b && (a + b)[0] == a[0];
      SplitSum(a[1..], b, loaded);
      var r, w := if Ready(a[0], loaded) then [a[0]] else [], if Ready(a[0], loaded) then [] else [a[0]];
      assert (r + ReadyOnes(a[1..], loaded)) + ReadyOnes(b, loaded) == r + (ReadyOnes(a[1..], loaded) + ReadyOnes(b, loaded));
      assert (w + WaitingOnes(a[1..], loaded)) + WaitingOnes(b, loaded) == w + (WaitingOnes(a[1..], loaded) + WaitingOnes(b, loaded));
    }
  }

  /** Loading more chunks: filtering twice is filtering once by the larger set. */
  lemma FilterTwice(es: seq<Deferred>, less: set<Id>, more: set<Id>)
    requires less <= more
    ensures WaitingOnes(WaitingOnes(es, less), more) == WaitingOnes(es, more)
    ensures multiset(ReadyOnes(es, less)) + multiset(ReadyOnes(WaitingOnes(es, less), more)) == multiset(ReadyOnes(es, more))
  {
    WaitingTwice(es, less, more);
    ReadyTwice(es, less, more);
  }

  lemma {:induction false} WaitingTwice(es: seq<Deferred>, less: set<Id>, more: set<Id>)
    requires less <= more
    ensures WaitingOnes(WaitingOnes(es, less), more) == WaitingOnes(es, more)
  {
    if es != [] {
      WaitingTwice(es[1..], less, more);
      if !Ready(es[0], less) {
        SplitSum([es[0]], WaitingOnes(es[1..], less), more);
        assert [es[0]][1..] == [];
      } else {
        assert [] + WaitingOnes(es[1..], less) == WaitingOnes(es[1..], less);
      }
    }
  }

  lemma {:induction false} ReadyCount(es: seq<Deferred>, loaded: set<Id>, e: Deferred)
    ensures multiset(ReadyOnes(es, loaded))[e] == if Ready(e, loaded) then multiset(es)[e] else 0
  {
    if es != [] {
      assert es == [es[0]] + es[1..];
      ReadyCount(es[1..], loaded, e);
    }
  }

  lemma {:induction false} WaitingCount(es: seq<Deferred>, loaded: set<Id>, e: Deferred)
    ensures multiset(WaitingOnes(es, loaded))[e] == if Ready(e, loaded) then 0 else multiset(es)[e]
  {
    if es != [] {
      assert es == [es[0]] + es[1..];
      WaitingCount(es[1..], loaded, e);
    }
  }

  lemma ReadyTwice(es: seq<Deferred>, less: set<Id>, more: set<Id>)
    requires less <= more
    ensures multiset(ReadyOnes(es, less)) + multiset(ReadyOnes(WaitingOnes(es, less), more)) == multiset(ReadyOnes(es, more))
  {
    var now, later, all := ReadyOnes(es, less), ReadyOnes(WaitingOnes(es, less), more), ReadyOnes(es, more);
    forall e
      ensures multiset(now)[e] + multiset(later)[e] == multiset(all)[e]
    {
      ReadyCount(es, less, e);
      WaitingCount(es, less, e);
      ReadyCount(WaitingOnes(es, less), more, e);
      ReadyCount(es, more, e);
    }
  }

  /** After any arrivals the list holds exactly the registered entries that are not ready, in order
      of registration, and exactly the ready ones have run, each once. */
  lemma {:induction false} ProgressAfter(t: seq<Arrival>)
    ensures var p := ArriveAll(START, t);
            p.loaded == AllChunks(t) &&
            p.waiting == WaitingOnes(AllEntries(t), AllChunks(t)) &&
            multiset(p.run) == multiset(ReadyOnes(AllEntries(t), AllChunks(t)))
  {
    if t != [] {
      var u, a := t[..|t| - 1], t[|t| - 1];
      ProgressAfter(u);
      var before, after := AllChunks(u), AllChunks(t);
      var p := ArriveAll(START, u);
      SplitSum(p.waiting, a.entries, after);
      SplitSum(AllEntries(u), a.entries, after);
      FilterTwice(AllEntries(u), before, after);
    }
  }

  /** When an entry runs: at the first arrival after which it is registered and all it needs is loaded. */
  lemma RunsWhenReady(t: seq<Arrival>, e: Deferred)
    requires t != []
    ensures var u := t[..|t| - 1];
            var now := ArriveAll(START, t).run[|ArriveAll(START, u).run|..];
            e in now <==> Ready(e, AllChunks(t)) &&
                          (e in t[|t| - 1].entries || (e in AllEntries(u) && !Ready(e, AllChunks(u))))
  {
    var u, a := t[..|t| - 1], t[|t| - 1];
    ProgressAfter(u);
    var p := ArriveAll(START, u);
    var list := p.waiting + a.entries;
    assert ArriveAll(START, t).run[|p.run|..] == ReadyOnes(list, AllChunks(t));
    FilterMembers(list, AllChunks(t), e);
    FilterMembers(AllEntries(u), AllChunks(u), e);
  }

  lemma {:induction false} FilterMembers(es: seq<Deferred>, loaded: set<Id>, e: Deferred)
    ensures e in ReadyOnes(es, loaded) <==> e in es && Ready(e, loaded)
    ensures e in WaitingOnes(es, loaded) <==> e in es && !Ready(e, loaded)
  {
    if es != [] {
      FilterMembers(es[1..], loaded, e);
    }
  }

  /** Scanning entry `k`: what is kept stays in front of what is left to scan, and a ready entry
      joins those that have run. */
  lemma ScanStep(all: seq<Deferred>, k: nat, loaded: set<Id>, before: seq<Deferred>, list: seq<Deferred>, i: nat)
    requires k < |all| && list == WaitingOnes(all[..k], loaded) + all[k..] && i == |WaitingOnes(all[..k], loaded)|
    ensures i < |list| && list[i] == all[k]
    ensures Ready(all[k], loaded) ==>
      list[..i] + list[i + 1..] == WaitingOnes(all[..k + 1], loaded) + all[k + 1..] &&
      |WaitingOnes(all[..k + 1], loaded)| == i &&
      ReadyOnes(all[..k + 1], loaded) == ReadyOnes(all[..k], loaded) + [all[k]] &&
      (before + ReadyOnes(all[..k], loaded)) + [all[k]] == before + ReadyOnes(all[..k + 1], loaded)
    ensures !Ready(all[k], loaded) ==>
      list == WaitingOnes(all[..k + 1], loaded) + all[k + 1..] &&
      |WaitingOnes(all[..k + 1], loaded)| == i + 1 &&
      ReadyOnes(all[..k + 1], loaded) == ReadyOnes(all[..k], loaded)
  {
    var kept, e, tail := WaitingOnes(all[..k], loaded), all[k], all[k + 1..];
    assert all[k..] == [e] + tail;
    Cut(kept, e, tail);
    NextOne(all, k, loaded);
    assert (before + ReadyOnes(all[..k], loaded)) + [e] == before + (ReadyOnes(all[..k], loaded) + [e]);
  }

  /** The filtered prefixes one entry further on. */
  lemma NextOne(all: seq<Deferred>, k: nat, loaded: set<Id>)
    requires k < |all|
    ensures ReadyOnes(all[..k + 1], loaded) ==
      if Ready(all[k], loaded) then ReadyOnes(all[..k], loaded) + [all[k]] else ReadyOnes(all[..k], loaded)
    ensures WaitingOnes(all[..k + 1], loaded) ==
      if Ready(all[k], loaded) then WaitingOnes(all[..k], loaded) else WaitingOnes(all[..k], loaded) + [all[k]]
  {
    assert all[..k + 1] == all[..k] + [all[k]];
    SplitSum(all[..k], [all[k]], loaded);
    Single(all[k], loaded);
  }

  lemma Single(e: Deferred, loaded: set<Id>)
    ensures ReadyOnes([e], loaded) == if Ready(e, loaded) then [e] else []
    ensures WaitingOnes([e], loaded) == if Ready(e, loaded) then [] else [e]
  {
    assert [e][1..] == [];
  }

  lemma Cut(kept: seq<Deferred>, e: Deferred, tail: seq<Deferred>)
    ensures var list := kept + ([e] + tail);
            list[|kept|] == e && list[..|kept|] + list[|kept| + 1..] == kept + tail && list == (kept + [e]) + tail
  {
  }

  /** Whether one of the entries reaches a module. */
  ghost predicate ReachedFrom(m: Modules, es: seq<Deferred>, x: Id) {
    exists e :: e in es && Reaches(m, e.entry, x)
  }

  /** The cache grew by precisely what the entries reach. */
  ghost predicate GrewBy(m: Modules, before: Cache, es: seq<Deferred>, after: Cache) {
    forall x :: x in after <==> x in before || ReachedFrom(m, es, x)
  }

  lemma GrewByOneMore(m: Modules, before: Cache, es: seq<Deferred>, between: Cache, e: Deferred, after: Cache)
    requires GrewBy(m, before, es, between)
    requires forall x :: x in after <==> x in between || Reaches(m, e.entry, x)
    ensures GrewBy(m, before, es + [e], after)
  {
    forall x
      ensures ReachedFrom(m, es + [e], x) <==> ReachedFrom(m, es, x) || Reaches(m, e.entry, x)
    {
      if ReachedFrom(m, es, x) {
        var f :| f in es && Reaches(m, f.entry, x);
        assert f in es + [e];
      }
      assert e in es + [e];
    }
  }

  /** From a closed cache the cache grows by what the entries reach in the whole graph. */
  lemma GrewByAll(m: Modules, before: Cache, es: seq<Deferred>, after: Cache)
    requires Closed(m, before.Keys)
    ensures GrewBy(Uncached(m, before), before, es, after) <==> GrewBy(m, before, es, after)
  {
    forall x | x !in before
      ensures ReachedFrom(Uncached(m, before), es, x) <==> ReachedFrom(m, es, x)
    {
      forall e | e in es
        ensures Reaches(Uncached(m, before), e.entry, x) <==> Reaches(m, e.entry, x)
      {
        UncachedReaches(m, before, e.entry, x);
      }
    }
  }

  // ---------------------------------------------------------------- order independence

  lemma CutBeforeLast(t: seq<Arrival>, i: nat)
    requires i < |t| - 1
    ensures var front := t[..|t| - 1];
            t[..i] + t[i + 1..] == (front[..i] + front[i + 1..]) + [t[|t| - 1]]
  {
  }

  lemma {:induction false} EntriesWithout(t: seq<Arrival>, i: nat)
    requires i < |t|
    ensures var u := t[..i] + t[i + 1..];
            AllChunks(t) == AllChunks(u) + Chunks(t[i].chunks) &&
            multiset(AllEntries(t)) == multiset(AllEntries(u)) + multiset(t[i].entries)
    decreases |t|
  {
    var n := |t| - 1;
    var u := t[..i] + t[i + 1..];
    if i == n {
      assert u == t[..n];
    } else {
      var rest := t[..n][..i] + t[..n][i + 1..];
      CutBeforeLast(t, i);
      assert (rest + [t[n]])[..n - 1] == rest;
      EntriesWithout(t[..n], i);
      assert AllEntries(t) == AllEntries(t[..n]) + t[n].entries;
      assert AllEntries(u) == AllEntries(rest) + t[n].entries;
    }
  }

  lemma CancelOne(a: multiset<Arrival>, b: multiset<Arrival>, x: Arrival)
    requires a + multiset{x} == b + multiset{x}
    ensures a == b
  {
    forall y
      ensures a[y] == b[y]
    {
      assert (a + multiset{x})[y] == (b + multiset{x})[y];
    }
  }

  lemma WithoutOne(u: seq<Arrival>, i: nat)
    requires i < |u|
    ensures multiset(u) == multiset(u[..i] + u[i + 1..]) + multiset{u[i]}
  {
    assert u == (u[..i] + [u[i]]) + u[i + 1..];
  }

  lemma {:induction false} SameArrivals(t: seq<Arrival>, u: seq<Arrival>)
    requires multiset(t) == multiset(u)
    ensures AllChunks(t) == AllChunks(u) && multiset(AllEntries(t)) == multiset(AllEntries(u))
    decreases |t|
  {
    if t == [] {
      assert |multiset(u)| == 0;
    } else {
      var n := |t| - 1;
      var x := t[n];
      assert t == t[..n] + [x];
      assert multiset(t) == multiset(t[..n]) + multiset{x};
      assert x in multiset(u);
      var i :| 0 <= i < |u| && u[i] == x;
      var v := u[..i] + u[i + 1..];
      WithoutOne(u, i);
      EntriesWithout(u, i);
      CancelOne(multiset(t[..n]), multiset(v), x);
      SameArrivals(t[..n], v);
    }
  }

  /** The order in which chunks arrive does not matter: the same chunks end up loaded, and the same
      entries have run, each as often as it was registered. */
  lemma OrderIndependent(t: seq<Arrival>, u: seq<Arrival>)
    requires multiset(t) == multiset(u)
    ensures var p, q := ArriveAll(START, t), ArriveAll(START, u);
            p.loaded == q.loaded && multiset(p.run) == multiset(q.run)
  {
    ProgressAfter(t);
    ProgressAfter(u);
    SameArrivals(t, u);
    forall e: Deferred
      ensures multiset(ReadyOnes(AllEntries(t), AllChunks(t)))[e] == multiset(ReadyOnes(AllEntries(u), AllChunks(u)))[e]
    {
      ReadyCount(AllEntries(t), AllChunks(t), e);
      ReadyCount(AllEntries(u), AllChunks(u), e);
    }
  }
}
