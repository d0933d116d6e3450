/** The Map and Set of the bundled core-js: a doubly linked list of entries with a hash index,
    iterated while it is being changed. Every method is specified by the list of `MapData`.
 */
module OrderedMap {
  import opened Wrappers
  import opened MapData
  import opened MapLinks

  /** The metadata that marks objects: an object gets an identifier the first time it becomes a
      key, unless it is no longer extensible. */
  class Registry {
    var meta: map<nat, nat>
    var inextensible: set<nat>
    var counter: nat
    const alike: set<(Key, nat)>

    ghost predicate Valid()
      reads this
    {
      View().Injective() && forall o :: o in meta ==> meta[o] <= counter
    }

    function View(): Marks
      reads this
    {
      Marks(meta, inextensible, alike)
    }

    constructor (alike: set<(Key, nat)>)
      ensures Valid() && View() == Marks(map[], {}, alike)
    {
      meta, inextensible, counter := map[], {}, 0;
      this.alike := alike;
    }

    /** The environment makes an object inextensible. */
    method Freeze(o: nat)
      requires Valid()
      modifies this
      ensures Valid() && View() == old(View()).(inextensible := old(inextensible) + {o})
      ensures old(View()).GrowInto(View())
    {
      inextensible := inextensible + {o};
    }

    /** The index key under which `k` is stored, marking an extensible object if need be. */
    method Mark(k: Key) returns (r: IndexKey)
      requires Valid()
      modifies this
      ensures Valid() && View().Lookups() == old(View()).Lookups()
      ensures r == View().IndexOf(k) && r != Name("E")
      ensures old(View()).GrowInto(View())
    {
      if k.Object? && k.id !in meta && k.id !in inextensible {
        counter := counter + 1;
        meta := meta[k.id := counter];
      }
      r := View().IndexOf(k);
      assert r.Name? ==> r.text[0] != 'E';
      assert inextensible - meta.Keys == old(inextensible - meta.Keys);
    }

    /** `==` between a stored key and a wanted one. */
    predicate LooselyEqual(stored: Key, wanted: Key)
      reads this
    {
      stored == wanted || (wanted.Object? && !stored.Object? && (stored, wanted.id) in alike)
    }
  }

  class Entry {
    const index: IndexKey
    const key: Key
    var value: int
    var previous: Entry?
    var next: Entry?
    var removed: bool
    /** Where the entry stands in the insertion history. */
    ghost const pos: nat

    constructor (index: IndexKey, key: Key, value: int, previous: Entry?, ghost pos: nat)
      ensures this.index == index && this.key == key && this.value == value
      ensures this.previous == previous && next == null && !removed && this.pos == pos
    {
      this.index, this.key, this.value, this.previous := index, key, value, previous;
      next, removed := null, false;
      this.pos := pos;
    }
  }

  ghost function Pos(e: Entry?): (p: int)
    ensures p >= -1
  {
    if e == null then -1 else e.pos
  }

  ghost function CellOf(e: Entry): Cell
    reads e
  {
    Cell(e.index, e.key, e.value, Pos(e.previous), Pos(e.next), e.removed)
  }

  class OrderedMap {
    var index: map<IndexKey, Entry>
    var first: Entry?
    var last: Entry?
    var size: int
    const registry: Registry
    /** Every entry ever inserted, oldest first, and the links between them as values. */
    ghost var history: seq<Entry>
    ghost var cells: seq<Cell>
    ghost var table: map<IndexKey, nat>

    /** `e` is missing or stands at its own position in the history. */
    ghost predicate Known(e: Entry?)
      reads this`history
    {
      e != null ==> e.pos < |history| && history[e.pos] == e
    }

    /** The entry at position `i` holds what `cells` says. */
    ghost predicate MirrorsAt(i: nat)
      requires i < |history| == |cells|
      reads this`history, this`cells, history
    {
      history[i].pos == i && Known(history[i].previous) && Known(history[i].next) &&
      CellOf(history[i]) == cells[i]
    }

    ghost predicate EntriesMirror()
      reads this`history, this`cells, history
    {
      |history| == |cells| && forall i :: 0 <= i < |history| ==> MirrorsAt(i)
    }

    ghost predicate IndexMirrors()
      reads this`history, this`index, this`table
    {
      index.Keys == table.Keys && forall k :: k in index ==> Known(index[k]) && index[k].pos == table[k]
    }

    /** The objects hold what the ghost values say. */
    ghost predicate Mirrors()
      reads this, history
    {
      EntriesMirror() && IndexMirrors() && Known(first) && Known(last)
    }

    ghost function Links(): Shape
      reads this
    {
      Shape(cells, Pos(first), Pos(last), table, size)
    }

    ghost predicate Valid()
      reads this, history, registry
    {
      registry.Valid() && Mirrors() && Sound(Links(), registry.View())
    }

    /** The ordered map this structure stands for. */
    ghost function Contents(): seq<Slot>
      reads this
    {
      Data(cells)
    }

    constructor (registry: Registry)
      requires registry.Valid()
      ensures Valid() && Contents() == [] && this.registry == registry && history == []
    {
      index, first, last, size := map[], null, null, 0;
      this.registry := registry;
      history, cells, table := [], [], map[];
    }

    /** Another map on the same registry, or the environment, may mark and freeze objects. */
    twostate lemma Undisturbed()
      requires old(Valid()) && registry.Valid() && old(registry.View()).GrowInto(registry.View())
      requires unchanged(this) && unchanged(history)
      ensures Valid() && Contents() == old(Contents())
    {
      GrownSound(Links(), old(registry.View()), registry.View());
      assert forall i :: 0 <= i < |history| && old(MirrorsAt(i)) ==> MirrorsAt(i);
    }

    method Find(k: Key) returns (e: Entry?)
      requires Valid()
      ensures var p := Locate(Contents(), k, registry.View().Lookups());
              Known(e) && (if e == null then p == |history| else !e.removed && p == e.pos)
    {
      var marks := registry.View();
      var o := marks.IndexOf(k);
      if o != Name("F") {
        FindIndexed(Links(), marks, k);
        e := if o in index then index[o] else null;
        assert e != null ==> MirrorsAt(e.pos);
      } else {
        e := Scan(k);
      }
    }

    /** The search for a key that has no index key of its own. */
    method Scan(k: Key) returns (e: Entry?)
      requires Valid() && registry.View().IndexOf(k) == Name("F")
      ensures var p := Locate(Contents(), k, registry.View().Lookups());
              Known(e) && (if e == null then p == |history| else !e.removed && p == e.pos)
    {
      ghost var d, rule := Contents(), registry.View().Lookups();
      ghost var p := Locate(d, k, rule);
      e := first;
      ghost var at: nat := 0;
      StepOn(Links(), registry.View(), -1, 0);
      while e != null
        invariant Known(e) && at <= |history| && at <= p
        invariant NextRecord(d, at) == if e == null then |history| else e.pos
        decreases |history| - at
      {
        ScanStep(e, k, at);
        if registry.LooselyEqual(e.key, k) {
          return;
        }
        at := e.pos + 1;
        e := e.next;
      }
      LocateFrom(d, k, rule, at);
    }

    /** The entry at hand is the one, or the search goes on behind it. */
    lemma ScanStep(e: Entry, k: Key, at: nat)
      requires Valid() && registry.View().IndexOf(k) == Name("F") && Known(e)
      requires at <= |history| && at <= Locate(Contents(), k, registry.View().Lookups()) && NextRecord(Contents(), at) == e.pos
      ensures var p := Locate(Contents(), k, registry.View().Lookups());
              if registry.LooselyEqual(e.key, k) then p == e.pos && !e.removed else e.pos < p
      ensures e.pos >= at && Known(e.next)
      ensures NextRecord(Contents(), e.pos + 1) == if e.next == null then |history| else e.next.pos
    {
      LocateFrom(Contents(), k, registry.View().Lookups(), at);
      LiveNext(e);
    }

    /** A live entry holds its record, and its `next` is the next record. */
    lemma LiveNext(e: Entry)
      requires Valid() && Known(e) && Contents()[e.pos].Record?
      ensures !e.removed && Contents()[e.pos] == Record(e.key, e.value) && Known(e.next)
      ensures NextRecord(Contents(), e.pos + 1) == if e.next == null then |history| else e.next.pos
    {
      assert MirrorsAt(e.pos);
      StepOn(Links(), registry.View(), e.pos, e.pos + 1);
    }

    /** `set`: overwrites the value of the entry found, or appends a new one. */
    method Set(k: Key, v: int)
      requires Valid()
      modifies this, history, registry
      ensures Valid() && registry.View().Lookups() == old(registry.View().Lookups())
      ensures old(registry.View()).GrowInto(registry.View())
      ensures IsSet(Contents(), old(Contents()), k, v, registry.View().Lookups())
      ensures Contents() == SetData(old(Contents()), k, v, old(registry.View().Lookups()))
      ensures old(history) <= history && fresh(set e | e in history && e !in old(history))
    {
      ghost var s, m := Links(), registry.View();
      SetLeaves(Contents(), k, v, m.Lookups());
      var a := Find(k);
      if a != null {
        assert MirrorsAt(a.pos);
        AssignSound(s, m, a.pos, v);
        Overwrite(a, v);
      } else {
        Insert(k, v);
      }
    }

    method Insert(k: Key, v: int)
      requires Valid() && Locate(Contents(), k, registry.View().Lookups()) == |history|
      modifies this, history, registry
      ensures Valid() && registry.View().Lookups() == old(registry.View().Lookups())
      ensures old(registry.View()).GrowInto(registry.View())
      ensures Contents() == old(Contents()) + [Record(k, v)]
      ensures old(history) <= history && fresh(set e | e in history && e !in old(history))
    {
      ghost var s, m := Links(), registry.View();
      var o := registry.Mark(k);
      AppendSound(s, m, registry.View(), o, k, v);
      Push(o, k, v);
    }

    method Push(o: IndexKey, k: Key, v: int)
      requires Mirrors()
      modifies this, history
      ensures Mirrors() && Links() == Append(old(Links()), o, k, v)
      ensures old(history) <= history && fresh(set e | e in history && e !in old(history))
    {
      var a := Link(o, k, v);
      last := a;
      if first == null {
        first := a;
      }
      size := size + 1;
      if o != Name("F") {
        index := index[o := a];
        table := table[o := a.pos];
      }
    }

    /** A new entry behind the last one. */
    method Link(o: IndexKey, k: Key, v: int) returns (a: Entry)
      requires EntriesMirror() && Known(last)
      modifies this`cells, this`history, history`next
      ensures EntriesMirror() && fresh(a) && a.pos == |old(history)| && history == old(history) + [a]
      ensures cells == Append(old(Links()), o, k, v).cells
    {
      var r := last;
      a := Create(o, k, v, r);
      if r != null {
        SetNext(r, a);
      }
    }

    /** `delete`: unlinks the entry but leaves its own links in place for open cursors. */
    method Delete(k: Key) returns (found: bool)
      requires Valid()
      modifies this, history
      ensures Valid() && history == old(history)
      ensures found == (Locate(old(Contents()), k, registry.View().Lookups()) < |history|)
      ensures IsDeleted(Contents(), old(Contents()), k, registry.View().Lookups())
      ensures Contents() == DeleteData(old(Contents()), k, registry.View().Lookups())
    {
      var n := Find(k);
      if n != null {
        assert MirrorsAt(n.pos);
        UnlinkSound(Links(), registry.View(), n.pos);
        Detach(n);
      }
      return n != null;
    }

    method Detach(n: Entry)
      requires Mirrors() && Known(n) && CellLinked(cells, n.pos) && !cells[n.pos].removed
      modifies this, history
      ensures Mirrors() && history == old(history) && Links() == Unlink(old(Links()), n.pos)
    {
      assert MirrorsAt(n.pos);
      var r, o := n.next, n.previous;
      Bypass(n);
      Unindex(n.index);
      MoveEnds(n, r, o);
      size := size - 1;
    }

    method Unindex(k: IndexKey)
      requires IndexMirrors()
      modifies this`index, this`table
      ensures IndexMirrors() && table == old(table) - {k}
    {
      index, table := index - {k}, table - {k};
    }

    method MoveEnds(n: Entry, r: Entry?, o: Entry?)
      requires Known(first) && Known(last) && Known(n) && Known(r) && Known(o)
      modifies this`first, this`last
      ensures Known(first) && Pos(first) == (if Pos(old(first)) == n.pos then Pos(r) else Pos(old(first)))
      ensures Known(last) && Pos(last) == (if Pos(old(last)) == n.pos then Pos(o) else Pos(old(last)))
    {
      if first == n {
        first := r;
      }
      if last == n {
        last := o;
      }
    }

    method Has(k: Key) returns (found: bool)
      requires Valid()
      ensures found == (Locate(Contents(), k, registry.View().Lookups()) < |history|)
    {
      var e := Find(k);
      return e != null;
    }

    /** `get`: the value of the record found. */
    method Get(k: Key) returns (value: Option<int>)
      requires Valid()
      ensures var p := Locate(Contents(), k, registry.View().Lookups());
              value == if p < |Contents()| then Some(Contents()[p].value) else None
    {
      var e := Find(k);
      if e == null {
        return None;
      }
      assert MirrorsAt(e.pos);
      return Some(e.value);
    }

    /** The number of records. */
    method Size() returns (n: int)
      requires Valid()
      ensures n == Count(Contents())
    {
      return size;
    }

    /** `clear`: removes every entry and cuts the links between them. */
    method Clear()
      requires Valid()
      modifies this, history
      ensures Valid() && history == old(history)
      ensures IsCleared(Contents(), old(Contents()))
      ensures Contents() == ClearData(old(Contents()))
    {
      ClearAll();
      first, last, size := null, null, 0;
      ClearingEnds(cells, table, registry.View());
    }

    /** Goes through the entries from the first one on. */
    method ClearAll()
      requires Valid()
      modifies this`cells, this`index, this`table, history`removed, history`next, history`previous
      ensures EntriesMirror() && IndexMirrors() && Clearing(cells, table, -1)
    {
      ClearingStarts(Links(), registry.View());
      var n := first;
      while n != null
        invariant EntriesMirror() && IndexMirrors() && Known(n) && Clearing(cells, table, Pos(n))
        decreases if n == null then 0 else |history| - n.pos
        modifies this`cells, this`index, this`table, history`removed, history`next, history`previous
      {
        n := ClearOne(n);
      }
    }

    /** Removes an entry, cuts its link backwards and drops it from the index; returns the next one. */
    method ClearOne(n: Entry) returns (m: Entry?)
      requires EntriesMirror() && IndexMirrors() && Known(n) && Clearing(cells, table, n.pos)
      modifies this`cells, this`index, this`table, history`removed, history`next, history`previous
      ensures EntriesMirror() && IndexMirrors() && Known(m) && Clearing(cells, table, Pos(m))
      ensures m == null || m.pos > n.pos
    {
      assert MirrorsAt(n.pos);
      ClearingStep(cells, table, n.pos);
      m := n.next;
      CutBack(n);
      Unindex(n.index);
    }

    method CutBack(n: Entry)
      requires EntriesMirror() && Known(n) && cells[n.pos].prev < n.pos
      modifies this`cells, history`removed, history`next, history`previous
      ensures EntriesMirror() && cells == ClearCell(old(cells), n.pos)
    {
      assert MirrorsAt(n.pos);
      MarkRemoved(n);
      if n.previous != null {
        SetNext(n.previous, null);
        SetPrevious(n, null);
      }
    }

    /** Carries out a callback's script of changes. */
    method Run(ops: seq<Op>)
      requires Valid()
      modifies this, history, registry
      ensures Valid() && registry.View().Lookups() == old(registry.View().Lookups())
      ensures old(registry.View()).GrowInto(registry.View())
      ensures Contents() == ApplyAll(old(Contents()), ops, old(registry.View().Lookups()))
      ensures old(history) <= history && fresh(set e | e in history && e !in old(history))
      decreases |ops|
    {
      if ops != [] {
        RunOne(ops[0]);
        Run(ops[1..]);
      }
    }

    method RunOne(op: Op)
      requires Valid()
      modifies this, history, registry
      ensures Valid() && registry.View().Lookups() == old(registry.View().Lookups())
      ensures old(registry.View()).GrowInto(registry.View())
      ensures Contents() == Apply(old(Contents()), op, old(registry.View().Lookups()))
      ensures old(history) <= history && fresh(set e | e in history && e !in old(history))
    {
      match op {
        case Set(k, v) => Set(k, v);
        case Delete(k) => var _ := Delete(k);
        case Clear => Clear();
      }
    }

    /** One step of a cursor that last returned `last`: walks back over removed entries, then on. */
    method Advance(last: Entry?, ghost at: nat) returns (n: Entry?)
      requires Valid() && Known(last) && at <= |history| && Behind(cells, Pos(last), at)
      ensures OnRecord(n, at)
    {
      n := last;
      while n != null && n.removed
        invariant Known(n) && Behind(cells, Pos(n), at)
        decreases Pos(n) + 1
      {
        assert MirrorsAt(n.pos);
        WalkBack(Links(), registry.View(), n.pos, at);
        n := n.previous;
      }
      if n != null {
        assert MirrorsAt(n.pos);
      }
      StepOn(Links(), registry.View(), Pos(n), at);
      n := if n == null then first else n.next;
      if n != null {
        assert MirrorsAt(n.pos);
      }
    }

    /** `forEach`: the t-th callback changes the map as `scripts[t]` says. */
    method ForEach(scripts: seq<seq<Op>>) returns (seen: seq<(Key, int)>, ghost visits: seq<Visit>)
      requires Valid()
      modifies this, history, registry
      ensures Valid() && registry.View().Lookups() == old(registry.View().Lookups())
      ensures old(registry.View()).GrowInto(registry.View())
      ensures visits == Visits(old(Contents()), 0, scripts, old(registry.View().Lookups()))
      ensures Contents() == Final(old(Contents()), 0, scripts, old(registry.View().Lookups()))
      ensures Shown(visits) == seen
    {
      ghost var rule := registry.View().Lookups();
      ghost var whole := Walk(Contents(), 0, scripts, []);
      ghost var walk := whole;
      seen := [];
      var rest := scripts;
      var e := Advance(null, 0);
      while e != null
        invariant Valid() && registry.View().Lookups() == rule && old(registry.View()).GrowInto(registry.View())
        invariant OnRecord(e, walk.at) && walk.d == Contents() && walk.rest == rest
        invariant fresh(set x | x in history && x !in old(history))
        invariant walk.LeadsTo(whole, rule)
        invariant Shown(walk.visits) == seen
        decreases |rest|, |walk.d| - walk.at
      {
        seen := seen + [(e.key, e.value)];
        e, walk := VisitOne(e, rest, walk, whole);
        rest := Next(rest).1;
      }
      walk.EndsAs(whole, rule);
      visits := walk.visits;
    }

    /** One callback of a traversal, and the way to the next entry. */
    method VisitOne(e: Entry, rest: seq<seq<Op>>, ghost walk: Walk, ghost whole: Walk) returns (n: Entry?, ghost next: Walk)
      requires Valid() && OnRecord(e, walk.at) && walk.d == Contents() && walk.rest == rest
      requires walk.LeadsTo(whole, registry.View().Lookups())
      modifies this, history, registry
      ensures Valid() && registry.View().Lookups() == old(registry.View().Lookups())
      ensures old(registry.View()).GrowInto(registry.View())
      ensures fresh(set x | x in history && x !in old(history))
      ensures OnRecord(n, next.at) && next.d == Contents() && next.rest == Next(rest).1
      ensures next.at > walk.at && (rest == [] ==> next.d == walk.d)
      ensures next.LeadsTo(whole, registry.View().Lookups())
      ensures Shown(next.visits) == Shown(walk.visits) + [(e.key, old(e.value))]
    {
      next := WalkOn(walk, whole, registry.View().Lookups(), e.pos, e.key, e.value);
      n := CallBack(e, Next(rest).0);
    }

    /** `e` is the next record at or after `at`, or there is none. */
    ghost predicate OnRecord(e: Entry?, at: nat)
      reads this, history
    {
      Known(e) && at <= |Contents()| &&
      NextRecord(Contents(), at) == (if e == null then |Contents()| else e.pos) &&
      (e != null ==> e.pos < |Contents()| && Contents()[e.pos] == Record(e.key, e.value))
    }

    /** Runs one callback's changes and moves on from the entry it was called for. */
    method CallBack(e: Entry, now: seq<Op>) returns (n: Entry?)
      requires Valid() && Known(e)
      modifies this, history, registry
      ensures Valid() && registry.View().Lookups() == old(registry.View().Lookups())
      ensures old(registry.View()).GrowInto(registry.View())
      ensures Contents() == ApplyAll(old(Contents()), now, old(registry.View().Lookups()))
      ensures old(history) <= history && fresh(set x | x in history && x !in old(history))
      ensures OnRecord(n, e.pos + 1)
    {
      RunFrom(e, now);
      n := Advance(e, e.pos + 1);
    }

    /** The changes leave a cursor at `e` where it is. */
    method RunFrom(e: Entry, now: seq<Op>)
      requires Valid() && Known(e)
      modifies this, history, registry
      ensures Valid() && registry.View().Lookups() == old(registry.View().Lookups())
      ensures old(registry.View()).GrowInto(registry.View())
      ensures Contents() == ApplyAll(old(Contents()), now, old(registry.View().Lookups()))
      ensures old(history) <= history && fresh(set x | x in history && x !in old(history))
      ensures Known(e) && Behind(cells, e.pos, e.pos + 1)
    {
      ApplyAllGrows(Contents(), now, registry.View().Lookups());
      ghost var before := cells;
      Run(now);
      BehindStable(before, cells, e.pos, e.pos + 1);
    }

    method Bypass(n: Entry)
      requires EntriesMirror() && Known(n) && cells[n.pos].prev < n.pos && cells[n.pos].next < |cells|
      modifies this`cells, history`removed, history`next, history`previous
      ensures EntriesMirror() && cells == UnlinkCells(old(cells), n.pos)
    {
      assert MirrorsAt(n.pos);
      var r, o := n.next, n.previous;
      MarkRemoved(n);
      if o != null {
        SetNext(o, r);
      }
      if r != null {
        SetPrevious(r, o);
      }
    }

    // The field writes below also record themselves in `cells`.

    method Overwrite(e: Entry, v: int)
      requires Mirrors() && Known(e)
      modifies this`cells, e`value
      ensures Mirrors() && Links() == Assign(old(Links()), e.pos, v)
    {
      e.value := v;
      cells := cells[e.pos := cells[e.pos].(value := v)];
      assert forall i :: 0 <= i < |history| && old(MirrorsAt(i)) ==> MirrorsAt(i);
    }

    method MarkRemoved(e: Entry)
      requires EntriesMirror() && Known(e)
      modifies this`cells, e`removed
      ensures EntriesMirror() && cells == old(cells)[e.pos := old(cells)[e.pos].(removed := true)]
    {
      e.removed := true;
      cells := cells[e.pos := cells[e.pos].(removed := true)];
      assert forall i :: 0 <= i < |history| && old(MirrorsAt(i)) ==> MirrorsAt(i);
    }

    method SetNext(e: Entry, n: Entry?)
      requires EntriesMirror() && Known(e) && Known(n)
      modifies this`cells, e`next
      ensures EntriesMirror() && cells == old(cells)[e.pos := old(cells)[e.pos].(next := Pos(n))]
    {
      e.next := n;
      cells := cells[e.pos := cells[e.pos].(next := Pos(n))];
      assert forall i :: 0 <= i < |history| && old(MirrorsAt(i)) ==> MirrorsAt(i);
    }

    method SetPrevious(e: Entry, p: Entry?)
      requires EntriesMirror() && Known(e) && Known(p)
      modifies this`cells, e`previous
      ensures EntriesMirror() && cells == old(cells)[e.pos := old(cells)[e.pos].(prev := Pos(p))]
    {
      e.previous := p;
      cells := cells[e.pos := cells[e.pos].(prev := Pos(p))];
      assert forall i :: 0 <= i < |history| && old(MirrorsAt(i)) ==> MirrorsAt(i);
    }

    /** A new entry at the end of the history. */
    method Create(o: IndexKey, k: Key, v: int, r: Entry?) returns (a: Entry)
      requires EntriesMirror() && Known(r)
      modifies this`cells, this`history
      ensures fresh(a) && a.pos == |old(history)| && history == old(history) + [a]
      ensures EntriesMirror() && cells == old(cells) + [Cell(o, k, v, Pos(r), -1, false)]
    {
      a := new Entry(o, k, v, r, |history|);
      history := history + [a];
      cells := cells + [Cell(o, k, v, Pos(r), -1, false)];
      forall i | 0 <= i < |history|
        ensures MirrorsAt(i)
      {
        assert i < |old(history)| ==> old(MirrorsAt(i));
      }
    }
  }

  /** An open iterator; the map may change in any way between two calls of `Next`. */
  class MapIterator {
    const state: OrderedMap
    var live: bool
    var last: Entry?
    /** The index a list iterator would have reached. */
    ghost var at: nat

    ghost predicate Valid()
      reads this, state, state.history, state.registry
    {
      state.Valid() && state.Known(last) && at <= |state.history| && Behind(state.cells, Pos(last), at)
    }

    constructor (state: OrderedMap)
      requires state.Valid()
      ensures Valid() && live && at == 0 && this.state == state
    {
      this.state, live, last, at := state, true, null, 0;
    }

    /** Any change of the map leaves the iterator where it was. */
    twostate lemma Undisturbed()
      requires old(Valid()) && state.Valid() && old(state.history) <= state.history
      requires Later(old(state.Contents()), state.Contents())
      requires last == old(last) && at == old(at)
      ensures Valid()
    {
      BehindStable(old(state.cells), state.cells, Pos(last), at);
    }

    /** Returns the next record of the list, and nothing ever after the first time there is none. */
    method Next() returns (r: Slot)
      requires Valid()
      modifies this
      ensures Valid()
      ensures var j := NextRecord(state.Contents(), old(at));
              if old(live) && j < |state.history| then r == state.Contents()[j] && live && at == j + 1
              else r == Empty && !live
    {
      if !live {
        return Empty;
      }
      last := state.Advance(last, at);
      if last == null {
        live, at := false, 0;
        return Empty;
      }
      at := last.pos + 1;
      r := Record(last.key, last.value);
    }
  }
}
