/** What the patch between two JSON values does: carried out operation by operation, sections 4.1 to 4.3 of RFC 6902, it
    turns the first value into the second. */
module JsonPatch {
  import opened Wrappers
  import opened Decimals
  import opened JsonDiff

  // --- pointers, section 3 of RFC 6901 ---

  function Unescaped(s: string): string {
    if s == "" then ""
    else if "~0" <= s then "~" + Unescaped(s[2..])
    else if "~1" <= s then "/" + Unescaped(s[2..])
    else [s[0]] + Unescaped(s[1..])
  }

  /** Where the first reference of a pointer ends. */
  function FirstEnd(path: string, from: nat): (end: nat)
    requires from <= |path|
    ensures from <= end <= |path| && (end < |path| ==> path[end] == '/')
    ensures forall i :: from <= i < end ==> path[i] != '/'
    decreases |path| - from
  {
    if from == |path| || path[from] == '/' then from else FirstEnd(path, from + 1)
  }

  /** The references of a pointer; one that is not empty begins with a slash. */
  function References(path: string): Option<seq<string>> {
    if path == "" then Some([])
    else if path[0] != '/' then None
    else
      var end := FirstEnd(path, 1);
      var rest := References(path[end..]);
      if rest.None? then None else Some([Unescaped(path[1..end])] + rest.value)
  }

  /** The pointer with these references. */
  function PathOf(ks: seq<string>): string {
    if ks == [] then "" else "/" + Pointer(ks[0]) + PathOf(ks[1..])
  }

  lemma {:induction false} PointerReadsBack(key: string)
    ensures '/' !in Pointer(key) && Unescaped(Pointer(key)) == key
  {
    if key != "" {
      PointerReadsBack(key[1..]);
      var c, rest := key[0], Pointer(key[1..]);
      var p := PointerChar(c) + rest;
      assert Pointer(key) == p && key == [c] + key[1..];
      if c == '~' || c == '/' {
        assert p[0] == '~' && p[1] == (if c == '~' then '0' else '1') && p[2..] == rest;
      } else {
        assert p[0] == c && p[1..] == rest;
      }
    }
  }

  lemma ReferencesCons(name: string, rest: string)
    requires '/' !in name && (rest != "" ==> rest[0] == '/')
    ensures References("/" + name + rest) ==
              if References(rest).None? then None else Some([Unescaped(name)] + References(rest).value)
  {
    var path := "/" + name + rest;
    FirstEndAt(path, 1, 1 + |name|);
    assert path[1..1 + |name|] == name && path[1 + |name|..] == rest;
  }

  /** Every pointer built from names reads back as those names. */
  lemma {:induction false} ReferencesOf(ks: seq<string>)
    ensures References(PathOf(ks)) == Some(ks)
  {
    if ks != [] {
      PointerReadsBack(ks[0]);
      ReferencesOf(ks[1..]);
      ReferencesCons(Pointer(ks[0]), PathOf(ks[1..]));
      assert [ks[0]] + ks[1..] == ks;
    }
  }

  lemma {:induction false} FirstEndAt(path: string, from: nat, end: nat)
    requires from <= end <= |path| && (end < |path| ==> path[end] == '/') && forall i :: from <= i < end ==> path[i] != '/'
    ensures FirstEnd(path, from) == end
    decreases end - from
  {
    if from < end {
      FirstEndAt(path, from + 1, end);
    }
  }

  lemma {:induction false} PathSnoc(ks: seq<string>, k: string)
    ensures PathOf(ks + [k]) == PathOf(ks) + "/" + Pointer(k)
  {
    if ks == [] {
      assert [] + [k] == [k] && [k][1..] == [];
    } else {
      PathSnoc(ks[1..], k);
      assert (ks + [k])[1..] == ks[1..] + [k];
      var a, b, c := "/" + Pointer(ks[0]), PathOf(ks[1..]), "/" + Pointer(k);
      assert a + (b + "/" + Pointer(k)) == (a + b) + "/" + Pointer(k);
    }
  }

  // --- places in a document ---

  /** The number that a reference stands for in an array. */
  function Index(k: string): Option<nat> {
    if AllDigits(k) && Decimal(Read(k)) == k then Some(Read(k)) else None
  }

  lemma IndexOf(i: nat)
    ensures Index(Decimal(i)) == Some(i) && Pointer(Decimal(i)) == Decimal(i)
  {
    DecimalReads(i);
    PlainUnchanged(Decimal(i));
  }

  predicate Has(d: Json, k: string) {
    (d.Object? && k in d.members) || (d.Array? && Index(k).Some? && Index(k).value < |d.items|)
  }

  function Child(d: Json, k: string): (c: Json)
    requires Has(d, k)
    ensures c < d
  {
    if d.Object? then d.members[k] else d.items[Index(k).value]
  }

  function WithChild(d: Json, k: string, v: Json): (e: Json)
    requires Has(d, k)
    ensures Has(e, k) && Child(e, k) == v
  {
    if d.Object? then Object(d.members[k := v]) else Array(d.items[Index(k).value := v])
  }

  /** The value at a place. */
  function At(d: Json, ks: seq<string>): Option<Json> {
    if ks == [] then Some(d) else if Has(d, ks[0]) then At(Child(d, ks[0]), ks[1..]) else None
  }

  /** The document with another value there. */
  function Put(d: Json, ks: seq<string>, v: Json): Json
    requires At(d, ks).Some?
  {
    if ks == [] then v else WithChild(d, ks[0], Put(Child(d, ks[0]), ks[1..], v))
  }

  lemma {:induction false} AtPut(d: Json, ks: seq<string>, v: Json)
    requires At(d, ks).Some?
    ensures At(Put(d, ks, v), ks) == Some(v)
    decreases |ks|
  {
    if ks != [] {
      AtPut(Child(d, ks[0]), ks[1..], v);
    }
  }

  lemma {:induction false} PutPut(d: Json, ks: seq<string>, v: Json, w: Json)
    requires At(d, ks).Some?
    ensures At(Put(d, ks, v), ks).Some? && Put(Put(d, ks, v), ks, w) == Put(d, ks, w)
    decreases |ks|
  {
    if ks != [] {
      PutPut(Child(d, ks[0]), ks[1..], v, w);
      WithChildTwice(d, ks[0], Put(Child(d, ks[0]), ks[1..], v), Put(Child(d, ks[0]), ks[1..], w));
    }
  }

  lemma WithChildTwice(d: Json, k: string, v: Json, w: Json)
    requires Has(d, k)
    ensures WithChild(WithChild(d, k, v), k, w) == WithChild(d, k, w)
  {
    if d.Object? {
      assert d.members[k := v][k := w] == d.members[k := w];
    } else {
      assert d.items[Index(k).value := v][Index(k).value := w] == d.items[Index(k).value := w];
    }
  }

  lemma {:induction false} PutSame(d: Json, ks: seq<string>)
    requires At(d, ks).Some?
    ensures Put(d, ks, At(d, ks).value) == d
    decreases |ks|
  {
    if ks != [] {
      PutSame(Child(d, ks[0]), ks[1..]);
      if d.Object? {
        assert d.members[ks[0] := d.members[ks[0]]] == d.members;
      } else {
        assert d.items[Index(ks[0]).value := d.items[Index(ks[0]).value]] == d.items;
      }
    }
  }

  /** One reference further down. */
  lemma {:induction false} AtSnoc(d: Json, ks: seq<string>, k: string)
    requires At(d, ks).Some? && Has(At(d, ks).value, k)
    ensures At(d, ks + [k]) == Some(Child(At(d, ks).value, k))
    ensures forall v :: Put(d, ks + [k], v) == Put(d, ks, WithChild(At(d, ks).value, k, v))
    decreases |ks|
  {
    if ks == [] {
      assert [] + [k] == [k] && [k][1..] == [];
    } else {
      assert (ks + [k])[0] == ks[0] && (ks + [k])[1..] == ks[1..] + [k];
      AtSnoc(Child(d, ks[0]), ks[1..], k);
    }
  }

  // --- operations ---

  /** Adds a member, or inserts an item. */
  function AddChild(d: Json, k: string, v: Json): Option<Json> {
    match d
    case Object(m) => Some(Object(m[k := v]))
    case Array(a) =>
      if Index(k).Some? && Index(k).value <= |a| then Some(Array(a[..Index(k).value] + [v] + a[Index(k).value..])) else None
    case _ => None
  }

  /** Takes a member or an item away. */
  function RemoveChild(d: Json, k: string): Option<Json> {
    if !Has(d, k) then None
    else if d.Object? then Some(Object(d.members - {k}))
    else Some(Array(d.items[..Index(k).value] + d.items[Index(k).value + 1..]))
  }

  /** The document after one operation; nothing when the operation does not apply. */
  function Carried(d: Json, op: Op): Option<Json> {
    var ks := References(op.path);
    if ks.None? then None
    else if op.Replace? then (if At(d, ks.value).None? then None else Some(Put(d, ks.value, op.value)))
    else if ks.value == [] then (if op.Add? then Some(op.value) else None)
    else
      var parent, k := ks.value[..|ks.value| - 1], ks.value[|ks.value| - 1];
      var p := At(d, parent);
      if p.None? then None
      else
        var q := if op.Add? then AddChild(p.value, k, op.value) else RemoveChild(p.value, k);
        if q.None? then None else Some(Put(d, parent, q.value))
  }

  function Patched(d: Json, ops: seq<Op>): Option<Json>
    decreases |ops|
  {
    if ops == [] then Some(d)
    else
      var e := Carried(d, ops[0]);
      if e.None? then None else Patched(e.value, ops[1..])
  }

  lemma {:induction false} PatchedConcat(d: Json, a: seq<Op>, b: seq<Op>)
    ensures Patched(d, a + b) == if Patched(d, a).None? then None else Patched(Patched(d, a).value, b)
    decreases |a|
  {
    if a == [] {
      assert a + b == b;
    } else {
      assert (a + b)[0] == a[0] && (a + b)[1..] == a[1..] + b;
      if Carried(d, a[0]).Some? {
        PatchedConcat(Carried(d, a[0]).value, a[1..], b);
      }
    }
  }

  /** One stretch of operations after another, both on the value at the same place. */
  lemma PatchedThen(d: Json, ks: seq<string>, a: seq<Op>, v: Json, b: seq<Op>, w: Json)
    requires At(d, ks).Some? && Patched(d, a) == Some(Put(d, ks, v))
    requires At(Put(d, ks, v), ks).Some? ==> Patched(Put(d, ks, v), b) == Some(Put(Put(d, ks, v), ks, w))
    ensures Patched(d, a + b) == Some(Put(d, ks, w))
  {
    AtPut(d, ks, v);
    PutPut(d, ks, v, w);
    PatchedConcat(d, a, b);
  }

  lemma PatchedOne(d: Json, op: Op)
    ensures Patched(d, [op]) == Carried(d, op)
  {
    assert [op][1..] == [];
  }

  /** The operations on children of the value at a place. */
  lemma CarriedBelow(d: Json, ks: seq<string>, k: string, op: Op)
    requires At(d, ks).Some? && op.path == PathOf(ks) + "/" + Pointer(k) && !op.Replace?
    ensures var q := if op.Add? then AddChild(At(d, ks).value, k, op.value) else RemoveChild(At(d, ks).value, k);
            Carried(d, op) == if q.None? then None else Some(Put(d, ks, q.value))
  {
    PathSnoc(ks, k);
    ReferencesOf(ks + [k]);
    assert (ks + [k])[..|ks|] == ks;
  }

  // --- the patch between two values ---

  lemma Extended<T>(a: seq<T>, n: nat)
    requires n < |a|
    ensures a[..n + 1] == a[..n] + [a[n]] && a[..n + 1][..n] == a[..n] && |a[..n + 1]| - 1 == n
  {
  }

  /** What comes behind the last item, and goes again. */
  lemma Behind<T>(a: seq<T>, x: T)
    ensures a[..|a|] + [x] + a[|a|..] == a + [x]
    ensures forall b: seq<T> :: b != [] ==> b[..|b| - 1] + b[|b| - 1 + 1..] == b[..|b| - 1]
  {
  }

  /** The members of an object are visited each once. */
  ghost predicate Lists(order: Order) {
    Enumerates(order) && forall m, i, j :: 0 <= i < j < |order(m)| ==> order(m)[i] != order(m)[j]
  }

  /** The patch between two values turns the first into the second, wherever in a document it is. */
  lemma {:induction false} DiffPatches(order: Order, d: Json, ks: seq<string>, s: Json, t: Json)
    requires Lists(order) && At(d, ks) == Some(s)
    ensures Patched(d, Diff(order, s, t, PathOf(ks))) == Some(Put(d, ks, t))
    decreases s, 1, 0
  {
    var path := PathOf(ks);
    if s == t {
      PutSame(d, ks);
    } else if s.Array? && t.Array? {
      ArrayPatches(order, d, ks, s, t);
    } else if s.Object? && t.Object? {
      ObjectPatches(order, d, ks, s, t);
    } else {
      ReferencesOf(ks);
      PatchedOne(d, Replace(path, t));
    }
  }

  lemma {:induction false} ArrayPatches(order: Order, d: Json, ks: seq<string>, s: Json, t: Json)
    requires Lists(order) && At(d, ks) == Some(s) && s.Array? && t.Array?
    ensures var common := if |s.items| < |t.items| then |s.items| else |t.items|;
            Patched(d, DiffItems(order, s, t, 0, PathOf(ks)) + RemovedItems(PathOf(ks), common, |s.items|) +
                       AddedItems(t, common, PathOf(ks))) == Some(Put(d, ks, t))
    decreases s, 0, |s.items| + 1
  {
    var common := if |s.items| < |t.items| then |s.items| else |t.items|;
    var now := t.items[..common] + s.items[common..];
    ItemsPatch(order, d, ks, s, t, 0, s.items);
    FromStart(s.items, t.items, common);
    LengthPatch(d, ks, t, DiffItems(order, s, t, 0, PathOf(ks)), now, common);
  }

  /** After the items in common, the left-over ones go, or the further ones come. */
  lemma LengthPatch(d: Json, ks: seq<string>, t: Json, a: seq<Op>, now: seq<Json>, common: nat)
    requires t.Array? && At(d, ks).Some? && Patched(d, a) == Some(Put(d, ks, Array(now)))
    requires common <= |now| && common <= |t.items| && now[..common] == t.items[..common]
    ensures Patched(d, a + RemovedItems(PathOf(ks), common, |now|) + AddedItems(t, common, PathOf(ks))) == Some(Put(d, ks, t))
  {
    var b, c, rest := RemovedItems(PathOf(ks), common, |now|), AddedItems(t, common, PathOf(ks)), t.items[..common];
    AtPut(d, ks, Array(now));
    RemovedPatch(Put(d, ks, Array(now)), ks, now, common, |now|);
    PatchedThen(d, ks, a, Array(now), b, Array(rest));
    AtPut(d, ks, Array(rest));
    AddedPatch(Put(d, ks, Array(rest)), ks, t, common, rest);
    PatchedThen(d, ks, a + b, Array(rest), c, t);
  }

  /** The items from `i` on, up to the end of the shorter array. */
  lemma {:induction false} ItemsPatch(order: Order, d: Json, ks: seq<string>, s: Json, t: Json, i: nat, cur: seq<Json>)
    requires Lists(order) && s.Array? && t.Array? && At(d, ks) == Some(Array(cur))
    requires |cur| == |s.items| && i <= |s.items| && i <= |t.items| && cur[i..] == s.items[i..]
    ensures var common := if |s.items| < |t.items| then |s.items| else |t.items|;
            Patched(d, DiffItems(order, s, t, i, PathOf(ks))) ==
              Some(Put(d, ks, Array(cur[..i] + t.items[i..common] + s.items[common..])))
    decreases s, 0, |s.items| - i
  {
    var path, common := PathOf(ks), if |s.items| < |t.items| then |s.items| else |t.items|;
    if i == common {
      assert cur[..i] + t.items[i..common] + s.items[common..] == cur;
      PutSame(d, ks);
    } else {
      var k, next := Decimal(i), cur[i := t.items[i]];
      assert cur[i] == cur[i..][0] == s.items[i];
      ItemAt(d, ks, cur, i);
      DiffPatches(order, d, ks + [k], s.items[i], t.items[i]);
      AtPut(d, ks, Array(next));
      assert next[i + 1..] == cur[i..][1..] == s.items[i + 1..];
      ItemsPatch(order, Put(d, ks, Array(next)), ks, s, t, i + 1, next);
      NextItems(cur, s.items, t.items, i, common);
      PatchedThen(d, ks, Diff(order, s.items[i], t.items[i], path + "/" + k), Array(next), DiffItems(order, s, t, i + 1, path),
                  Array(cur[..i] + t.items[i..common] + s.items[common..]));
    }
  }

  /** An item of an array further down. */
  lemma ItemAt(d: Json, ks: seq<string>, cur: seq<Json>, i: nat)
    requires At(d, ks) == Some(Array(cur)) && i < |cur|
    ensures At(d, ks + [Decimal(i)]) == Some(cur[i]) && PathOf(ks + [Decimal(i)]) == PathOf(ks) + "/" + Decimal(i)
    ensures forall v :: Put(d, ks + [Decimal(i)], v) == Put(d, ks, Array(cur[i := v]))
  {
    IndexOf(i);
    assert Has(Array(cur), Decimal(i));
    AtSnoc(d, ks, Decimal(i));
    PathSnoc(ks, Decimal(i));
  }

  lemma FromStart<T>(s: seq<T>, t: seq<T>, common: nat)
    requires common <= |s| && common <= |t|
    ensures s[..0] + t[0..common] + s[common..] == t[..common] + s[common..]
    ensures (t[..common] + s[common..])[..common] == t[..common] && |t[..common] + s[common..]| == |s|
  {
    assert s[..0] + t[0..common] == t[..common];
  }

  lemma NextItems<T>(cur: seq<T>, s: seq<T>, t: seq<T>, i: nat, common: nat)
    requires i < common <= |s| == |cur| && common <= |t|
    ensures cur[i := t[i]][..i + 1] + t[i + 1..common] + s[common..] == cur[..i] + t[i..common] + s[common..]
  {
    assert cur[i := t[i]][..i + 1] + t[i + 1..common] == cur[..i] + t[i..common];
  }

  /** The items that are left over go, the last one first. */
  lemma {:induction false} RemovedPatch(d: Json, ks: seq<string>, cur: seq<Json>, from: nat, until: nat)
    requires At(d, ks) == Some(Array(cur)) && from <= until == |cur|
    ensures Patched(d, RemovedItems(PathOf(ks), from, until)) == Some(Put(d, ks, Array(cur[..from])))
    decreases until - from
  {
    if from == until {
      assert cur[..from] == cur;
      PutSame(d, ks);
    } else {
      var next := cur[..from + 1];
      RemovedPatch(d, ks, cur, from + 1, until);
      AtPut(d, ks, Array(next));
      LastRemoved(Put(d, ks, Array(next)), ks, next);
      Extended(cur, from);
      PatchedThen(d, ks, RemovedItems(PathOf(ks), from + 1, until), Array(next),
                  [Remove(PathOf(ks) + "/" + Decimal(from))], Array(cur[..from]));
    }
  }

  lemma LastRemoved(d: Json, ks: seq<string>, cur: seq<Json>)
    requires At(d, ks) == Some(Array(cur)) && cur != []
    ensures Patched(d, [Remove(PathOf(ks) + "/" + Decimal(|cur| - 1))]) == Some(Put(d, ks, Array(cur[..|cur| - 1])))
  {
    var i, op := |cur| - 1, Remove(PathOf(ks) + "/" + Decimal(|cur| - 1));
    RemoveLast(cur);
    CarriedBelow(d, ks, Decimal(i), op);
    PatchedOne(d, op);
  }

  lemma RemoveLast(cur: seq<Json>)
    requires cur != []
    ensures Pointer(Decimal(|cur| - 1)) == Decimal(|cur| - 1)
    ensures RemoveChild(Array(cur), Decimal(|cur| - 1)) == Some(Array(cur[..|cur| - 1]))
  {
    var i, k := |cur| - 1, Decimal(|cur| - 1);
    IndexOf(i);
    assert Has(Array(cur), k);
    Behind(cur[..i], cur[i]);
  }

  /** The further items are put behind. */
  lemma {:induction false} AddedPatch(d: Json, ks: seq<string>, t: Json, from: nat, cur: seq<Json>)
    requires t.Array? && At(d, ks) == Some(Array(cur)) && from <= |t.items| && cur == t.items[..from]
    ensures Patched(d, AddedItems(t, from, PathOf(ks))) == Some(Put(d, ks, t))
    decreases |t.items| - from
  {
    if from == |t.items| {
      assert cur == t.items;
      PutSame(d, ks);
    } else {
      var next := t.items[..from + 1];
      NextAdded(d, ks, cur, t.items[from]);
      Extended(t.items, from);
      AtPut(d, ks, Array(next));
      AddedPatch(Put(d, ks, Array(next)), ks, t, from + 1, next);
      PatchedThen(d, ks, [Add(PathOf(ks) + "/" + Decimal(from), t.items[from])], Array(next),
                  AddedItems(t, from + 1, PathOf(ks)), t);
    }
  }

  lemma NextAdded(d: Json, ks: seq<string>, cur: seq<Json>, v: Json)
    requires At(d, ks) == Some(Array(cur))
    ensures Patched(d, [Add(PathOf(ks) + "/" + Decimal(|cur|), v)]) == Some(Put(d, ks, Array(cur + [v])))
  {
    var i, op := |cur|, Add(PathOf(ks) + "/" + Decimal(|cur|), v);
    AddLast(cur, v);
    CarriedBelow(d, ks, Decimal(i), op);
    PatchedOne(d, op);
  }

  lemma AddLast(cur: seq<Json>, v: Json)
    ensures Pointer(Decimal(|cur|)) == Decimal(|cur|)
    ensures AddChild(Array(cur), Decimal(|cur|), v) == Some(Array(cur + [v]))
  {
    IndexOf(|cur|);
    Behind(cur, v);
  }

  lemma {:induction false} ObjectPatches(order: Order, d: Json, ks: seq<string>, s: Json, t: Json)
    requires Lists(order) && At(d, ks) == Some(s) && s.Object? && t.Object? && s != t
    ensures Patched(d, Diff(order, s, t, PathOf(ks))) == Some(Put(d, ks, t))
    decreases s, 0, |order(s.members)| + 1
  {
    var path, keys := PathOf(ks), order(s.members);
    MembersPatch(order, d, ks, s, t, keys, s.members);
    var now := Moved(s.members, t, keys);
    var e := Put(d, ks, Object(now));
    AtPut(d, ks, Object(now));
    AddedMembersPatch(order, e, ks, s, t, order(t.members), now);
    PutPut(d, ks, Object(now), t);
    PatchedConcat(d, DiffMembers(order, s, t, keys, path), AddedMembers(s, t, order(t.members), path));
  }

  /** The members `keys` as they are in `t`, or gone. */
  function Moved(cur: map<string, Json>, t: Json, keys: seq<string>): map<string, Json>
    requires t.Object?
  {
    map k | k in cur && (k !in keys || k in t.members) :: if k in keys then t.members[k] else cur[k]
  }

  lemma {:induction false} MembersPatch(order: Order, d: Json, ks: seq<string>, s: Json, t: Json, keys: seq<string>,
                                        cur: map<string, Json>)
    requires Lists(order) && s.Object? && t.Object? && At(d, ks) == Some(Object(cur))
    requires forall i, j :: 0 <= i < j < |keys| ==> keys[i] != keys[j]
    requires forall k :: k in keys ==> k in s.members && k in cur && cur[k] == s.members[k]
    ensures Patched(d, DiffMembers(order, s, t, keys, PathOf(ks))) == Some(Put(d, ks, Object(Moved(cur, t, keys))))
    decreases s, 0, |keys|
  {
    if keys == [] {
      assert Moved(cur, t, keys) == cur;
      PutSame(d, ks);
    } else {
      var k, rest := keys[0], keys[1..];
      var next := MemberPatch(order, d, ks, s, t, k, cur);
      AtPut(d, ks, Object(next));
      assert forall q :: q in rest ==> q != k;
      MembersPatch(order, Put(d, ks, Object(next)), ks, s, t, rest, next);
      MovedStep(cur, next, t, keys);
      PatchedThen(d, ks, MemberOps(order, s, t, k, PathOf(ks)), Object(next), DiffMembers(order, s, t, rest, PathOf(ks)),
                  Object(Moved(cur, t, keys)));
    }
  }

  lemma MovedStep(cur: map<string, Json>, next: map<string, Json>, t: Json, keys: seq<string>)
    requires t.Object? && keys != [] && keys[0] in cur && keys[0] !in keys[1..]
    requires next == if keys[0] in t.members then cur[keys[0] := t.members[keys[0]]] else cur - {keys[0]}
    ensures Moved(next, t, keys[1..]) == Moved(cur, t, keys)
  {
    assert keys == [keys[0]] + keys[1..];
  }

  /** The operations for one member of the first object. */
  function MemberOps(order: Order, s: Json, t: Json, k: string, path: string): seq<Op>
    requires s.Object? && t.Object? && k in s.members
  {
    if k in t.members then Diff(order, s.members[k], t.members[k], path + "/" + Pointer(k)) else [Remove(path + "/" + Pointer(k))]
  }

  lemma {:induction false} MemberPatch(order: Order, d: Json, ks: seq<string>, s: Json, t: Json, k: string, cur: map<string, Json>)
    returns (next: map<string, Json>)
    requires Lists(order) && s.Object? && t.Object? && At(d, ks) == Some(Object(cur))
    requires k in s.members && k in cur && cur[k] == s.members[k]
    ensures next == if k in t.members then cur[k := t.members[k]] else cur - {k}
    ensures Patched(d, MemberOps(order, s, t, k, PathOf(ks))) == Some(Put(d, ks, Object(next)))
    decreases s, 0, 0
  {
    if k in t.members {
      next := cur[k := t.members[k]];
      AtSnoc(d, ks, k);
      PathSnoc(ks, k);
      DiffPatches(order, d, ks + [k], s.members[k], t.members[k]);
    } else {
      next := cur - {k};
      var op := Remove(PathOf(ks) + "/" + Pointer(k));
      CarriedBelow(d, ks, k, op);
      PatchedOne(d, op);
    }
  }

  lemma {:induction false} AddedMembersPatch(order: Order, d: Json, ks: seq<string>, s: Json, t: Json, keys: seq<string>,
                                             cur: map<string, Json>)
    requires s.Object? && t.Object? && At(d, ks) == Some(Object(cur))
    requires forall k :: k in cur ==> k in t.members && cur[k] == t.members[k]
    requires forall k :: k in t.members && k !in cur ==> k in keys && k !in s.members
    ensures Patched(d, AddedMembers(s, t, keys, PathOf(ks))) == Some(Put(d, ks, t))
    decreases |keys|
  {
    if keys == [] {
      assert cur == t.members;
      PutSame(d, ks);
    } else {
      var k, rest := keys[0], keys[1..];
      if k in t.members && k !in s.members {
        var op, next := Add(PathOf(ks) + "/" + Pointer(k), t.members[k]), cur[k := t.members[k]];
        CarriedBelow(d, ks, k, op);
        var e := Put(d, ks, Object(next));
        AtPut(d, ks, Object(next));
        AddedMembersPatch(order, e, ks, s, t, rest, next);
        PutPut(d, ks, Object(next), t);
        PatchedConcat(d, [op], AddedMembers(s, t, rest, PathOf(ks)));
        PatchedOne(d, op);
      } else {
        assert [] + AddedMembers(s, t, rest, PathOf(ks)) == AddedMembers(s, t, rest, PathOf(ks));
        AddedMembersPatch(order, d, ks, s, t, rest, cur);
      }
    }
  }

  /** The patch of a whole document: carried out on the one it turns it into the other. */
  lemma PatchTurns(order: Order, s: Json, t: Json)
    requires Lists(order)
    ensures Patched(s, Diff(order, s, t, "")) == Some(t)
  {
    DiffPatches(order, s, [], s, t);
  }
}
