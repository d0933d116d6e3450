/** The link structure of the core-js Map on values: entries by position, links as positions.

    `Sound` says what the links and the index must look like. Each change the code makes to the
    structure is a function here, with a lemma that it keeps `Sound` and what it does to the data.
 */
module MapLinks {
  import opened MapData
  import Decimals

  /** A property key of the index object: a string or a symbol. */
  datatype IndexKey = Name(text: string) | Unique(id: nat)

  /** Which objects carry an identifier, and which can no longer be given one. */
  datatype Marks = Marks(meta: map<nat, nat>, inextensible: set<nat>, alike: set<(Key, nat)>) {

    /** `fastKey` without marking: an unmarked extensible object yields a key nothing is stored under. */
    function IndexOf(k: Key): IndexKey {
      match k
      case Text(t) => Name("S" + t)
      case Primitive(t) => Name("P" + t)
      case Symbol(i) => Unique(i)
      case Object(o) =>
        if o in meta then Name("O" + Decimals.Decimal(meta[o]))
        else if o in inextensible then Name("F")
        else Name("E")
    }

    /** Objects frozen before they were marked are searched for with loose equality. */
    function Lookups(): Rule {
      Rule(inextensible - meta.Keys, alike)
    }

    ghost predicate Injective() {
      forall o, q :: o in meta && q in meta && meta[o] == meta[q] ==> o == q
    }

    /** Objects may be marked or made inextensible; what has an index key keeps it. */
    ghost predicate GrowInto(m: Marks) {
      forall k :: IndexOf(k) != Name("E") ==> m.IndexOf(k) == IndexOf(k)
    }

    /** Two keys share an index key only if they are equal, or neither has one of its own. */
    lemma IndexInjective(k: Key, q: Key)
      requires Injective() && IndexOf(k) == IndexOf(q) && IndexOf(k) !in {Name("F"), Name("E")}
      ensures k == q
    {
      var a, b := IndexOf(k), IndexOf(q);
      if a.Name? {
        assert a.text[0] == b.text[0] && a.text[1..] == b.text[1..];
        if k.Object? {
          Decimals.DecimalReads(meta[k.id]);
          Decimals.DecimalReads(meta[q.id]);
        }
      }
    }
  }

  /** One entry; a missing link is -1. */
  datatype Cell = Cell(index: IndexKey, key: Key, value: int, prev: int, next: int, removed: bool)

  datatype Shape = Shape(cells: seq<Cell>, first: int, last: int, table: map<IndexKey, nat>, size: int)

  function Data(c: seq<Cell>): (d: seq<Slot>)
    ensures |d| == |c|
  {
    seq(|c|, i requires 0 <= i < |c| => if c[i].removed then Empty else Record(c[i].key, c[i].value))
  }

  /** Every entry strictly between the two positions is removed. */
  ghost predicate Gap(c: seq<Cell>, from: int, to: int) {
    forall k :: from < k < to && 0 <= k < |c| ==> c[k].removed
  }

  /** `p` is a link backwards from position `i`: nothing live is skipped. */
  ghost predicate Back(c: seq<Cell>, p: int, i: int) {
    -1 <= p < i && p < |c| && Gap(c, p, i)
  }

  /** `n` is a link forwards from position `i`: the next live entry, if there is one. */
  ghost predicate On(c: seq<Cell>, n: int, i: int) {
    if n == -1 then Gap(c, i, |c|) else i < n < |c| && 0 <= n && !c[n].removed && Gap(c, i, n)
  }

  ghost predicate CellLinked(c: seq<Cell>, i: nat)
    requires i < |c|
  {
    Back(c, c[i].prev, i) &&
    (!c[i].removed ==> On(c, c[i].next, i) && (c[i].prev >= 0 ==> !c[c[i].prev].removed))
  }

  ghost predicate Linked(s: Shape) {
    (forall i :: 0 <= i < |s.cells| ==> CellLinked(s.cells, i)) &&
    On(s.cells, s.first, -1) &&
    Back(s.cells, s.last, |s.cells|) && (s.last >= 0 ==> !s.cells[s.last].removed)
  }

  /** The index leads from `k` to a live entry stored under `k`. */
  ghost predicate KeyIndexed(c: seq<Cell>, table: map<IndexKey, nat>, k: IndexKey)
    requires k in table
  {
    k != Name("F") && table[k] < |c| && !c[table[k]].removed && c[table[k]].index == k
  }

  /** A live entry is stored under the index key of its key, and found there unless that is "F". */
  ghost predicate CellIndexed(s: Shape, m: Marks, i: nat)
    requires i < |s.cells|
  {
    var e := s.cells[i];
    !e.removed ==>
      e.index == m.IndexOf(e.key) && e.index != Name("E") &&
      (e.index != Name("F") ==> e.index in s.table && s.table[e.index] == i)
  }

  ghost predicate Indexed(s: Shape, m: Marks) {
    (forall k :: k in s.table ==> KeyIndexed(s.cells, s.table, k)) &&
    (forall i :: 0 <= i < |s.cells| ==> CellIndexed(s, m, i))
  }

  ghost predicate Sound(s: Shape, m: Marks) {
    match s
    case Shape(cells, _, _, _, size) => m.Injective() && Linked(s) && Indexed(s, m) && size == Count(Data(cells))
  }

  /** A structure outlives the marking and the freezing of objects, its own keys included. */
  lemma GrownSound(s: Shape, was: Marks, m: Marks)
    requires Sound(s, was) && was.GrowInto(m) && m.Injective()
    ensures Sound(s, m)
  {
    forall i | 0 <= i < |s.cells|
      ensures CellIndexed(s, m, i)
    {
      assert CellIndexed(s, was, i);
    }
  }

  /** A lookup through the index finds what a scan of the list would. */
  lemma FindIndexed(s: Shape, m: Marks, k: Key)
    requires Sound(s, m) && m.IndexOf(k) != Name("F")
    ensures var p, o := Locate(Data(s.cells), k, m.Lookups()), m.IndexOf(k);
            p == if o in s.table then s.table[o] else |s.cells|
  {
    var p, o := Locate(Data(s.cells), k, m.Lookups()), m.IndexOf(k);
    if o in s.table {
      assert KeyIndexed(s.cells, s.table, o) && CellIndexed(s, m, s.table[o]);
      var e := s.cells[s.table[o]];
      m.IndexInjective(e.key, k);
      assert Data(s.cells)[s.table[o]] == Record(k, e.value);
    }
    if p < |s.cells| {
      assert CellIndexed(s, m, p);
    }
  }

  // ---------------------------------------------------------------- the changes

  function Assign(s: Shape, p: nat, v: int): Shape
    requires p < |s.cells|
  {
    s.(cells := s.cells[p := s.cells[p].(value := v)])
  }

  function Append(s: Shape, o: IndexKey, k: Key, v: int): Shape
    requires s.last < |s.cells|
  {
    var n := |s.cells|;
    var c := if s.last >= 0 then s.cells[s.last := s.cells[s.last].(next := n)] else s.cells;
    Shape(c + [Cell(o, k, v, s.last, -1, false)],
          if s.first == -1 then n else s.first,
          n,
          if o != Name("F") then s.table[o := n] else s.table,
          s.size + 1)
  }

  /** The cells when entry `p` drops out; its own links stay. */
  function UnlinkCells(c: seq<Cell>, p: nat): seq<Cell>
    requires p < |c| && c[p].prev < |c| && c[p].next < |c|
  {
    var r, o := c[p].next, c[p].prev;
    var c1 := c[p := c[p].(removed := true)];
    var c2 := if o >= 0 then c1[o := c1[o].(next := r)] else c1;
    if r >= 0 then c2[r := c2[r].(prev := o)] else c2
  }

  function Unlink(s: Shape, p: nat): Shape
    requires p < |s.cells| && s.cells[p].prev < |s.cells| && s.cells[p].next < |s.cells|
  {
    var r, o := s.cells[p].next, s.cells[p].prev;
    Shape(UnlinkCells(s.cells, p),
          if s.first == p then r else s.first,
          if s.last == p then o else s.last,
          s.table - {s.cells[p].index},
          s.size - 1)
  }

  lemma AssignSound(s: Shape, m: Marks, p: nat, v: int)
    requires Sound(s, m) && p < |s.cells| && !s.cells[p].removed
    ensures Sound(Assign(s, p, v), m)
    ensures Data(Assign(s, p, v).cells) == Data(s.cells)[p := Record(s.cells[p].key, v)]
  {
    var t := Assign(s, p, v);
    assert forall i :: 0 <= i < |s.cells| && CellIndexed(s, m, i) ==> CellIndexed(t, m, i);
    assert forall k :: k in s.table && KeyIndexed(s.cells, s.table, k) ==> KeyIndexed(t.cells, t.table, k);
    assert Data(t.cells) == Data(s.cells)[p := Record(s.cells[p].key, v)];
    CountUpdate(Data(s.cells), p, Record(s.cells[p].key, v));
    forall i | 0 <= i < |t.cells|
      ensures CellLinked(t.cells, i)
    {
      assert CellLinked(s.cells, i);
    }
  }

  /** An appended entry follows every other; `m` may mark more objects than `was` did. */
  lemma AppendSound(s: Shape, was: Marks, m: Marks, o: IndexKey, k: Key, v: int)
    requires Sound(s, was) && m.Injective()
    requires was.GrowInto(m)
    requires o == m.IndexOf(k) && o != Name("E")
    requires Locate(Data(s.cells), k, was.Lookups()) == |s.cells|
    ensures Sound(Append(s, o, k, v), m)
    ensures Data(Append(s, o, k, v).cells) == Data(s.cells) + [Record(k, v)]
  {
    var t := Append(s, o, k, v);
    AppendLinked(s, o, k, v);
    AppendIndexed(s, was, m, o, k, v);
    assert Data(t.cells) == Data(s.cells) + [Record(k, v)];
    assert Data(t.cells)[..|s.cells|] == Data(s.cells);
  }

  lemma AppendLinked(s: Shape, o: IndexKey, k: Key, v: int)
    requires Linked(s)
    ensures Linked(Append(s, o, k, v))
  {
    var t := Append(s, o, k, v);
    forall i | 0 <= i < |t.cells|
      ensures CellLinked(t.cells, i)
    {
      assert i < |s.cells| ==> CellLinked(s.cells, i);
    }
  }

  lemma AppendIndexed(s: Shape, was: Marks, m: Marks, o: IndexKey, k: Key, v: int)
    requires Sound(s, was) && m.Injective()
    requires was.GrowInto(m)
    requires o == m.IndexOf(k) && o != Name("E")
    requires Locate(Data(s.cells), k, was.Lookups()) == |s.cells|
    ensures Indexed(Append(s, o, k, v), m)
  {
    FreshIndex(s, was, m, o, k);
    var t := Append(s, o, k, v);
    forall i | 0 <= i < |t.cells|
      ensures CellIndexed(t, m, i)
    {
      assert i < |s.cells| ==> CellIndexed(s, was, i);
    }
    forall q | q in t.table
      ensures KeyIndexed(t.cells, t.table, q)
    {
      assert q in s.table ==> KeyIndexed(s.cells, s.table, q);
    }
  }

  /** The nearest live entry before a live entry and its link agree in both directions. */
  lemma NeighboursAgree(s: Shape, p: nat, q: nat)
    requires Linked(s) && p < q < |s.cells| && !s.cells[p].removed && !s.cells[q].removed
    ensures CellLinked(s.cells, p) && CellLinked(s.cells, q)
    ensures s.cells[p].next == q <==> s.cells[q].prev == p
  {
    assert CellLinked(s.cells, p) && CellLinked(s.cells, q);
  }

  lemma UnlinkCell(s: Shape, p: nat, i: nat)
    requires Linked(s) && p < |s.cells| && !s.cells[p].removed && i < |s.cells|
    ensures CellLinked(s.cells, p)
    ensures CellLinked(Unlink(s, p).cells, i)
  {
    assert CellLinked(s.cells, p) && CellLinked(s.cells, i);
    if !s.cells[i].removed && i < p {
      NeighboursAgree(s, i, p);
    } else if !s.cells[i].removed && p < i {
      NeighboursAgree(s, p, i);
    }
  }

  lemma UnlinkEnds(s: Shape, p: nat)
    requires Linked(s) && p < |s.cells| && !s.cells[p].removed
    ensures CellLinked(s.cells, p)
    ensures var t := Unlink(s, p);
            On(t.cells, t.first, -1) && Back(t.cells, t.last, |t.cells|) && (t.last >= 0 ==> !t.cells[t.last].removed)
  {
    assert CellLinked(s.cells, p);
  }

  lemma UnlinkSound(s: Shape, m: Marks, p: nat)
    requires Sound(s, m) && p < |s.cells| && !s.cells[p].removed
    ensures CellLinked(s.cells, p)
    ensures Sound(Unlink(s, p), m)
    ensures Data(Unlink(s, p).cells) == Data(s.cells)[p := Empty]
  {
    UnlinkEnds(s, p);
    var t := Unlink(s, p);
    forall i | 0 <= i < |t.cells|
      ensures CellLinked(t.cells, i)
    {
      UnlinkCell(s, p, i);
    }
    assert Linked(t);
    UnlinkIndexed(s, m, p);
    assert Data(t.cells) == Data(s.cells)[p := Empty];
    CountUpdate(Data(s.cells), p, Empty);
  }

  /** The index key of a key that is not in the list is not in the index. */
  lemma FreshIndex(s: Shape, was: Marks, m: Marks, o: IndexKey, k: Key)
    requires Sound(s, was) && m.Injective()
    requires was.GrowInto(m)
    requires o == m.IndexOf(k) && o != Name("E")
    requires Locate(Data(s.cells), k, was.Lookups()) == |s.cells|
    ensures o !in s.table
  {
    if o in s.table {
      assert KeyIndexed(s.cells, s.table, o) && CellIndexed(s, was, s.table[o]);
      m.IndexInjective(s.cells[s.table[o]].key, k);
      FindIndexed(s, was, k);
    }
  }

  lemma UnlinkIndexed(s: Shape, m: Marks, p: nat)
    requires Indexed(s, m) && p < |s.cells| && !s.cells[p].removed && CellLinked(s.cells, p)
    ensures Indexed(Unlink(s, p), m)
  {
    var t := Unlink(s, p);
    forall i | 0 <= i < |t.cells|
      ensures CellIndexed(t, m, i)
    {
      assert CellIndexed(s, m, i) && CellIndexed(s, m, p);
    }
    forall k | k in t.table
      ensures KeyIndexed(t.cells, t.table, k)
    {
      assert KeyIndexed(s.cells, s.table, k);
    }
  }

  /** `clear` in progress: everything before `n` is removed, the rest is still linked and indexed. */
  ghost predicate Clearing(c: seq<Cell>, table: map<IndexKey, nat>, n: int) {
    -1 <= n < |c| &&
    Gap(c, -1, if n == -1 then |c| else n) && (n >= 0 ==> !c[n].removed) &&
    (forall i :: 0 <= i < |c| ==> Back(c, c[i].prev, i) && (!c[i].removed ==> On(c, c[i].next, i))) &&
    (forall k :: k in table ==> KeyIndexed(c, table, k))
  }

  /** The cells after `clear` has dealt with entry `n`. */
  function ClearCell(c: seq<Cell>, n: nat): seq<Cell>
    requires n < |c| && c[n].prev < n
  {
    var c1 := c[n := c[n].(removed := true)];
    var o := c[n].prev;
    if o >= 0 then c1[o := c1[o].(next := -1)][n := c1[n].(prev := -1)] else c1
  }

  lemma ClearingStarts(s: Shape, m: Marks)
    requires Sound(s, m)
    ensures Clearing(s.cells, s.table, s.first)
  {
    forall i | 0 <= i < |s.cells|
      ensures Back(s.cells, s.cells[i].prev, i) && (!s.cells[i].removed ==> On(s.cells, s.cells[i].next, i))
    {
      assert CellLinked(s.cells, i);
    }
  }

  lemma ClearingStep(c: seq<Cell>, table: map<IndexKey, nat>, n: nat)
    requires n < |c| && Clearing(c, table, n)
    ensures Clearing(ClearCell(c, n), table - {c[n].index}, c[n].next)
  {
    var e := ClearCell(c, n);
    assert forall i :: 0 <= i < |c| ==> e[i].removed == (c[i].removed || i == n) && e[i].index == c[i].index;
    ClearedIndex(c, e, table, n);
    assert On(c, c[n].next, n);
    forall i | 0 <= i < |e|
      ensures Back(e, e[i].prev, i)
      ensures !e[i].removed ==> On(e, e[i].next, i)
    {
      assert Back(c, c[i].prev, i) && (!c[i].removed ==> On(c, c[i].next, i));
      ClearedLinks(c, e, n, i);
    }
  }

  /** Links that skipped nothing live skip nothing live among the entries that are left. */
  lemma ClearedLinks(c: seq<Cell>, e: seq<Cell>, n: nat, i: nat)
    requires n < |c| == |e| && i < |c| && c[n].prev < n && Gap(c, -1, n) && e == ClearCell(c, n)
    requires forall k :: 0 <= k < |c| ==> e[k].removed == (c[k].removed || k == n)
    requires Back(c, c[i].prev, i) && (!c[i].removed ==> On(c, c[i].next, i))
    ensures Back(e, e[i].prev, i) && (!e[i].removed ==> On(e, e[i].next, i))
  {
    assert Gap(e, c[i].prev, i);
  }

  lemma ClearedIndex(c: seq<Cell>, e: seq<Cell>, table: map<IndexKey, nat>, n: nat)
    requires n < |c| == |e| && forall k :: k in table ==> KeyIndexed(c, table, k)
    requires forall i :: 0 <= i < |c| ==> e[i].removed == (c[i].removed || i == n) && e[i].index == c[i].index
    ensures var rest := table - {c[n].index}; forall k :: k in rest ==> KeyIndexed(e, rest, k)
  {
    var rest := table - {c[n].index};
    forall k | k in rest
      ensures KeyIndexed(e, rest, k)
    {
      assert KeyIndexed(c, table, k);
    }
  }

  /** When nothing is left the structure is sound and every slot is empty. */
  lemma ClearingEnds(c: seq<Cell>, table: map<IndexKey, nat>, m: Marks)
    requires m.Injective() && Clearing(c, table, -1)
    ensures table == map[]
    ensures Sound(Shape(c, -1, -1, table, 0), m)
    ensures Data(c) == seq(|c|, _ => Empty)
  {
    assert forall i :: 0 <= i < |c| ==> c[i].removed;
    assert table.Keys == {};
    NoRecords(Data(c));
    forall i | 0 <= i < |c|
      ensures CellLinked(c, i)
    {
      assert Back(c, c[i].prev, i);
    }
  }

  lemma {:induction false} NoRecords(d: seq<Slot>)
    requires forall i :: 0 <= i < |d| ==> d[i].Empty?
    ensures Count(d) == 0
  {
    if d != [] {
      NoRecords(d[..|d| - 1]);
    }
  }

  // ---------------------------------------------------------------- cursors

  /** A cursor that has just left position `at - 1` stands on entry `n` (-1: before the first):
      nothing between it and `at` is live. Following `previous` from removed entries keeps this. */
  ghost predicate Behind(c: seq<Cell>, n: int, at: nat) {
    -1 <= n < at && n < |c| && Gap(c, n, at)
  }

  /** Whatever happens to the map between two steps, a cursor stays where it was. */
  lemma BehindStable(c: seq<Cell>, e: seq<Cell>, n: int, at: nat)
    requires Behind(c, n, at) && at <= |c| && Later(Data(c), Data(e))
    ensures Behind(e, n, at) && at <= |e|
  {
    forall k | n < k < at && 0 <= k < |e|
      ensures e[k].removed
    {
      assert Data(c)[k].Empty? && Data(e)[k].Empty?;
    }
  }

  lemma WalkBack(s: Shape, m: Marks, n: nat, at: nat)
    requires Sound(s, m) && n < |s.cells| && Behind(s.cells, n, at) && s.cells[n].removed
    ensures s.cells[n].prev < n && Behind(s.cells, s.cells[n].prev, at)
  {
    assert CellLinked(s.cells, n);
  }

  /** The entry after a cursor's live entry, or the first one, is the next record of the list. */
  lemma StepOn(s: Shape, m: Marks, n: int, at: nat)
    requires Sound(s, m) && at <= |s.cells| && Behind(s.cells, n, at) && (n >= 0 ==> !s.cells[n].removed)
    ensures var j := if n == -1 then s.first else s.cells[n].next;
            NextRecord(Data(s.cells), at) == if j == -1 then |s.cells| else j
  {
    var c := s.cells;
    if n >= 0 {
      assert CellLinked(c, n);
    }
    var j := if n == -1 then s.first else c[n].next;
    var r := NextRecord(Data(c), at);
    assert On(c, j, n);
    if r < |c| {
      assert Data(c)[r].Record? && !c[r].removed;
      assert !(n < r < j);
    }
    assert j >= 0 ==> Data(c)[j].Record?;
  }
}
