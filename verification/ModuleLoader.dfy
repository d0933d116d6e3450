/** The webpack runtime: a memoising loader over a module graph that may have cycles, and entries
    that wait for chunks arriving in any order.
 */
module ModuleLoader {
  import opened ModuleGraph

  datatype ChunkState = Loading(resolve: nat) | Prefetched | Loaded

  /** The promises of the listed chunks that are being loaded, in the order in which the list first names the chunks. */
  function Pending(chunks: map<Id, ChunkState>, ids: seq<Id>): seq<nat> {
    if ids == [] then []
    else
      var front, c := ids[..|ids| - 1], ids[|ids| - 1];
      Pending(chunks, front) + (if c in chunks && chunks[c].Loading? && c !in front then [chunks[c].resolve] else [])
  }

  /** Position `i` is the first one that names a chunk, and that chunk is being loaded. */
  ghost predicate Names(chunks: map<Id, ChunkState>, ids: seq<Id>, i: nat) {
    i < |ids| && ids[i] !in ids[..i] && ids[i] in chunks && chunks[ids[i]].Loading?
  }

  /** Each such position contributes one promise, and they stay in order. */
  lemma {:induction false} PendingMeans(chunks: map<Id, ChunkState>, ids: seq<Id>) returns (at: seq<nat>)
    ensures |at| == |Pending(chunks, ids)|
    ensures forall t :: 0 <= t < |at| ==> Names(chunks, ids, at[t]) && Pending(chunks, ids)[t] == chunks[ids[at[t]]].resolve
    ensures forall s, t :: 0 <= s < t < |at| ==> at[s] < at[t]
    ensures forall i :: Names(chunks, ids, i) ==> i in at
  {
    at := [];
    if ids != [] {
      var n := |ids| - 1;
      at := PendingMeans(chunks, ids[..n]);
      forall i | 0 <= i < n
        ensures Names(chunks, ids, i) <==> Names(chunks, ids[..n], i)
      {
        assert ids[..n][..i] == ids[..i];
      }
      if Names(chunks, ids, n) {
        at := at + [n];
      }
    }
  }

  class Runtime {
    var modules: Modules
    var installed: Cache
    var chunks: map<Id, ChunkState>
    var deferred: seq<Deferred>
    /** The bodies executed, the entries run, and the chunk promises resolved, in order. */
    var executed: seq<Id>
    var run: seq<Deferred>
    var resolved: seq<nat>

    ghost function LoadedChunks(): set<Id>
      reads this
    {
      set c | c in chunks && chunks[c] == Loaded
    }

    /** Between two callbacks everything cached exists and is loaded. */
    ghost predicate Settled()
      reads this
    {
      Once(executed, installed) && installed.Keys <= modules.Keys && forall x :: x in installed ==> installed[x]
    }

    constructor ()
      ensures Settled() && View() == START && executed == [] && modules == map[]
      ensures chunks == map[RUNTIME := Loaded] && resolved == []
    {
      modules, installed, chunks, deferred := map[], map[], map[RUNTIME := Loaded], [];
      executed, run, resolved := [], [], [];
    }

    /** `__webpack_require__`: a cached module is returned as it is, even if its body has not finished. */
    method Require(id: Id, ghost g: Modules)
      requires Once(executed, installed) && installed.Keys <= modules.Keys && Serves(g, modules, installed) && Complete(g, id)
      modifies this`installed, this`executed
      ensures Once(executed, installed) && id in installed
      ensures Loads(g, id, old(installed), installed)
      decreases |modules.Keys - installed.Keys|, 1, 0
    {
      if id in installed {
        LoadsNothing(g, id, installed);
        return;
      }
      assert id in modules && modules[id] == g[id] by { ReachesSelf(g, id); }
      Install(id);
      Fewer(modules.Keys - old(installed).Keys, modules.Keys - installed.Keys, id);
      ExecuteBody(id, modules[id], g);
      LoadsSelf(g, id, old(installed), installed);
      SetLoaded(id);
    }

    /** The module's flag. */
    method SetLoaded(id: Id)
      requires Once(executed, installed) && id in installed
      modifies this`installed
      ensures installed == old(installed)[id := true] && Once(executed, installed)
    {
      installed := installed[id := true];
    }

    /** Puts a module into the cache, not loaded yet, and starts its body. */
    method Install(id: Id)
      requires Once(executed, installed) && id !in installed
      modifies this`installed, this`executed
      ensures Once(executed, installed)
      ensures installed == old(installed)[id := false] && executed == old(executed) + [id]
    {
      installed := installed[id := false];
      executed := executed + [id];
    }

    /** Runs a module's body, which requires the modules in `rest`. */
    method ExecuteBody(id: Id, rest: seq<Id>, ghost g: Modules)
      requires Once(executed, installed) && installed.Keys <= modules.Keys && Serves(g, modules, installed)
      requires Complete(g, id) && id in g && forall y :: y in rest ==> y in g[id]
      modifies this`installed, this`executed
      ensures Once(executed, installed) && (forall y :: y in rest ==> y in installed)
      ensures Loads(g, id, old(installed), installed)
      decreases |modules.Keys - installed.Keys|, 2, |rest|
    {
      if rest == [] {
        LoadsNothing(g, id, installed);
        return;
      }
      var y := rest[0];
      CompleteStep(g, id, y);
      Require(y, g);
      ghost var between := installed;
      Shrinks(modules.Keys - installed.Keys, modules.Keys - old(installed).Keys);
      ExecuteBody(id, rest[1..], g);
      LoadsThen(g, id, y, old(installed), between, installed);
    }

    /** What has arrived, what waits, and what has run. */
    ghost function View(): Progress
      reads this
    {
      Progress(LoadedChunks(), deferred, run)
    }

    /** The entries ready to run need only modules that exist. */
    ghost predicate Runnable(es: seq<Deferred>, loaded: set<Id>, g: Modules) {
      forall e :: e in ReadyOnes(es, loaded) ==> Complete(g, e.entry)
    }

    /** Whether every chunk an entry needs is loaded. */
    method Fulfilled(e: Deferred) returns (fulfilled: bool)
      ensures fulfilled <==> forall c :: c in e.needs ==> c in chunks && chunks[c] == Loaded
      ensures fulfilled == Ready(e, LoadedChunks())
    {
      fulfilled := true;
      for j := 0 to |e.needs|
        invariant fulfilled <==> forall i :: 0 <= i < j ==> e.needs[i] in LoadedChunks()
      {
        if !(e.needs[j] in chunks && chunks[e.needs[j]] == Loaded) {
          fulfilled := false;
        }
      }
    }

    /** Where the scan over the entries `all` stands after the first `k`: `i` of them are kept. */
    ghost predicate Scanned(all: seq<Deferred>, k: nat, i: nat, g: Modules, before: Cache, start: seq<Deferred>)
      reads this
    {
      && k <= |all| && i == |WaitingOnes(all[..k], LoadedChunks())|
      && deferred == WaitingOnes(all[..k], LoadedChunks()) + all[k..]
      && run == start + ReadyOnes(all[..k], LoadedChunks())
      && Settled() && Serves(g, modules, installed) && Closed(g, installed.Keys)
      && GrewBy(g, before, ReadyOnes(all[..k], LoadedChunks()), installed)
    }

    /** `checkDeferredModules`: runs what is ready and splices it out of the list being scanned. */
    method CheckDeferredModules()
      requires Settled() && Runnable(deferred, LoadedChunks(), Uncached(modules, installed))
      modifies this`installed, this`executed, this`deferred, this`run
      ensures Settled() && Closed(Uncached(modules, old(installed)), installed.Keys)
      ensures deferred == WaitingOnes(old(deferred), LoadedChunks())
      ensures run == old(run) + ReadyOnes(old(deferred), LoadedChunks())
      ensures GrewBy(Uncached(modules, old(installed)), old(installed), ReadyOnes(old(deferred), LoadedChunks()), installed)
    {
      ghost var all, k, g := deferred, 0, Uncached(modules, installed);
      UncachedServes(modules, installed);
      var i: nat := 0;
      while i < |deferred|
        invariant k <= |all| && Scanned(all, k, i, g, old(installed), old(run))
        decreases |all| - k
      {
        i := ScanOne(i, all, k, g, old(installed), old(run));
        k := k + 1;
      }
      assert all[..k] == all;
    }

    /** The next entry: it runs and goes, or it stays. */
    method ScanOne(i: nat, ghost all: seq<Deferred>, ghost k: nat, ghost g: Modules, ghost before: Cache, ghost start: seq<Deferred>)
      returns (next: nat)
      requires Scanned(all, k, i, g, before, start) && i < |deferred| && Runnable(all, LoadedChunks(), g)
      modifies this`installed, this`executed, this`deferred, this`run
      ensures k < |all| && Scanned(all, k + 1, next, g, before, start)
    {
      ScanStep(all, k, LoadedChunks(), start, deferred, i);
      var e := deferred[i];
      var fulfilled := Fulfilled(e);
      if fulfilled {
        FilterMembers(all, LoadedChunks(), e);
        TakeOut(i);
        RunEntry(e, g, before, ReadyOnes(all[..k], LoadedChunks()));
        next := i;
      } else {
        next := i + 1;
      }
    }

    method TakeOut(i: nat)
      requires i < |deferred|
      modifies this`deferred
      ensures deferred == old(deferred)[..i] + old(deferred)[i + 1..]
    {
      deferred := deferred[..i] + deferred[i + 1..];
    }

    method RunEntry(e: Deferred, ghost g: Modules, ghost before: Cache, ghost es: seq<Deferred>)
      requires Settled() && Serves(g, modules, installed) && Closed(g, installed.Keys)
      requires Complete(g, e.entry) && GrewBy(g, before, es, installed)
      modifies this`installed, this`executed, this`run
      ensures Settled() && Serves(g, modules, installed) && Closed(g, installed.Keys)
      ensures run == old(run) + [e] && GrewBy(g, before, es + [e], installed)
    {
      run := run + [e];
      Require(e.entry, g);
      LoadsExactly(g, e.entry, old(installed), installed);
      GrewByOneMore(g, before, es, old(installed), e, installed);
    }

    /** `webpackJsonpCallback`: a chunk file has arrived. It brings chunks and modules and registers entries. A module
        that is cached already keeps what it was, even if the chunk brings another body for it. */
    method ChunkArrives(chunkIds: seq<Id>, more: Modules, entries: seq<Deferred>)
      requires Settled()
      requires Runnable(deferred + entries, LoadedChunks() + Chunks(chunkIds), Uncached(modules + more, installed))
      modifies this
      ensures Settled() && modules == old(modules) + more
      ensures View() == Arrive(old(View()), Arrival(chunkIds, entries))
      ensures resolved == old(resolved) + Pending(old(chunks), chunkIds)
      ensures GrewBy(Uncached(modules, old(installed)), old(installed), ReadyOnes(old(deferred) + entries, LoadedChunks()), installed)
      ensures Closed(modules, old(installed).Keys) ==>
                Closed(modules, installed.Keys) &&
                GrewBy(modules, old(installed), ReadyOnes(old(deferred) + entries, LoadedChunks()), installed)
    {
      var resolves := MarkLoaded(chunkIds);
      modules := modules + more;
      resolved := resolved + resolves;
      deferred := deferred + entries;
      CheckDeferredModules();
      if Closed(modules, old(installed).Keys) {
        GrewByAll(modules, old(installed), ReadyOnes(old(deferred) + entries, LoadedChunks()), installed);
        StillClosed(modules, old(installed), installed.Keys);
      }
    }

    method Flag(c: Id)
      modifies this`chunks
      ensures chunks == old(chunks)[c := Loaded] && LoadedChunks() == old(LoadedChunks()) + {c}
    {
      chunks := chunks[c := Loaded];
    }

    /** Marks the chunks as loaded and collects the promises of those that were being loaded. */
    method MarkLoaded(chunkIds: seq<Id>) returns (resolves: seq<nat>)
      modifies this`chunks
      ensures LoadedChunks() == old(LoadedChunks()) + Chunks(chunkIds)
      ensures forall c :: c !in chunkIds ==> (c in chunks <==> c in old(chunks)) && (c in chunks ==> chunks[c] == old(chunks)[c])
      ensures resolves == Pending(old(chunks), chunkIds)
    {
      resolves := [];
      for i := 0 to |chunkIds|
        invariant LoadedChunks() == old(LoadedChunks()) + Chunks(chunkIds[..i])
        invariant forall c :: c !in chunkIds[..i] ==> (c in chunks <==> c in old(chunks)) && (c in chunks ==> chunks[c] == old(chunks)[c])
        invariant forall c :: c in chunkIds[..i] ==> c in chunks && chunks[c] == Loaded
        invariant resolves == Pending(old(chunks), chunkIds[..i])
      {
        var c := chunkIds[i];
        if c in chunks && chunks[c].Loading? {
          resolves := resolves + [chunks[c].resolve];
        }
        NextChunk(old(chunks), chunkIds, i);
        Flag(c);
      }
      assert chunkIds[..|chunkIds|] == chunkIds;
    }
  }

  lemma NextChunk(chunks: map<Id, ChunkState>, ids: seq<Id>, i: nat)
    requires i < |ids|
    ensures Chunks(ids[..i + 1]) == Chunks(ids[..i]) + {ids[i]} && ids[..i + 1] == ids[..i] + [ids[i]]
    ensures Pending(chunks, ids[..i + 1]) == Pending(chunks, ids[..i]) +
              if ids[i] in chunks && chunks[ids[i]].Loading? && ids[i] !in ids[..i] then [chunks[ids[i]].resolve] else []
  {
    assert ids[..i + 1] == ids[..i] + [ids[i]] && ids[..i + 1][..i] == ids[..i];
  }

  lemma StillClosed(m: Modules, before: Cache, after: set<Id>)
    requires Closed(m, before.Keys) && Closed(Uncached(m, before), after) && before.Keys <= after
    ensures Closed(m, after)
  {
    forall x | x in after
      ensures x in m && forall y :: y in m[x] ==> y in after
    {
      assert x !in before ==> Uncached(m, before)[x] == m[x];
    }
  }

  lemma Shrinks(a: set<Id>, b: set<Id>)
    requires a <= b
    ensures |a| <= |b|
  {
    assert b == a + (b - a);
  }

  lemma Fewer(b: set<Id>, a: set<Id>, x: Id)
    requires a == b - {x} && x in b
    ensures |a| < |b|
  {
  }
}
