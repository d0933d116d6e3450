/** The abstract ordered map: the [[MapData]] list of section 24.1 of ECMA-262.

    A deleted record is not taken out of the list, its slot becomes empty. An iterator is an
    index into the list that skips empty slots. Nothing here knows about links or hashing.
 */
module MapData {

  /** Strings, other primitives (by their text; BigInt is excluded), symbols, and objects by identity. */
  datatype Key = Text(text: string) | Primitive(text: string) | Symbol(id: nat) | Object(id: nat)

  datatype Slot = Empty | Record(key: Key, value: int)

  datatype Op = Set(key: Key, value: int) | Delete(key: Key) | Clear

  /** How a lookup compares keys. Objects in `pinned` are searched for with loose equality, which
      also accepts the primitive keys that `alike` pairs with them; every other key by identity. */
  datatype Rule = Rule(pinned: set<nat>, alike: set<(Key, nat)>) {
    predicate Matches(stored: Key, wanted: Key) {
      stored == wanted ||
      (wanted.Object? && wanted.id in pinned && !stored.Object? && (stored, wanted.id) in alike)
    }
  }

  /** SameValueZero on every key, as the standard asks. */
  const STANDARD := Rule({}, {})

  /** The position of the first record that matches, or the length of the list. */
  function Locate(d: seq<Slot>, k: Key, rule: Rule): (p: nat)
    ensures p <= |d|
    ensures p < |d| ==> d[p].Record? && rule.Matches(d[p].key, k)
    ensures forall i :: 0 <= i < p ==> !(d[i].Record? && rule.Matches(d[i].key, k))
  {
    if d == [] then 0
    else if d[0].Record? && rule.Matches(d[0].key, k) then 0
    else 1 + Locate(d[1..], k, rule)
  }

  function SetData(d: seq<Slot>, k: Key, v: int, rule: Rule): seq<Slot> {
    var p := Locate(d, k, rule);
    if p < |d| then d[p := Record(d[p].key, v)] else d + [Record(k, v)]
  }

  function DeleteData(d: seq<Slot>, k: Key, rule: Rule): seq<Slot> {
    var p := Locate(d, k, rule);
    if p < |d| then d[p := Empty] else d
  }

  function ClearData(d: seq<Slot>): seq<Slot> {
    seq(|d|, _ => Empty)
  }

  function Apply(d: seq<Slot>, op: Op, rule: Rule): seq<Slot> {
    match op
    case Set(k, v) => SetData(d, k, v, rule)
    case Delete(k) => DeleteData(d, k, rule)
    case Clear => ClearData(d)
  }

  function ApplyAll(d: seq<Slot>, ops: seq<Op>, rule: Rule): seq<Slot>
    decreases |ops|
  {
    if ops == [] then d else ApplyAll(Apply(d, ops[0], rule), ops[1..], rule)
  }

  /** The number of records. */
  function Count(d: seq<Slot>): nat {
    if d == [] then 0 else Count(d[..|d| - 1]) + (if d[|d| - 1].Record? then 1 else 0)
  }

  lemma {:induction false} CountUpdate(d: seq<Slot>, p: nat, s: Slot)
    requires p < |d|
    ensures Count(d[p := s]) == Count(d) - (if d[p].Record? then 1 else 0) + (if s.Record? then 1 else 0)
  {
    var n := |d| - 1;
    var e := d[p := s];
    if p == n {
      assert e[..n] == d[..n];
    } else {
      assert e[..n] == d[..n][p := s];
      CountUpdate(d[..n], p, s);
    }
  }

  /** The first record at or after index `i`, or the length of the list. */
  function NextRecord(d: seq<Slot>, i: nat): (j: nat)
    requires i <= |d|
    ensures i <= j <= |d|
    ensures j < |d| ==> d[j].Record?
    ensures forall k :: i <= k < j ==> d[k].Empty?
    decreases |d| - i
  {
    if i == |d| || d[i].Record? then i else NextRecord(d, i + 1)
  }

  /** A search that has come to `at` without success goes on with the next record. */
  lemma LocateFrom(d: seq<Slot>, k: Key, rule: Rule, at: nat)
    requires at <= Locate(d, k, rule)
    ensures var j, p := NextRecord(d, at), Locate(d, k, rule);
            if j == |d| then p == |d|
            else if rule.Matches(d[j].key, k) then p == j
            else j < p
  {
  }

  /** No two records share a key. */
  ghost predicate DistinctKeys(d: seq<Slot>) {
    forall i, j :: 0 <= i < j < |d| && d[i].Record? && d[j].Record? ==> d[i].key != d[j].key
  }

  lemma ApplyKeepsDistinct(d: seq<Slot>, op: Op, rule: Rule)
    requires DistinctKeys(d)
    ensures DistinctKeys(Apply(d, op, rule))
  {
    var e := Apply(d, op, rule);
    forall i, j | 0 <= i < j < |e| && e[i].Record? && e[j].Record?
      ensures e[i].key != e[j].key
    {
      if j < |d| {
        assert d[i].Record? && d[j].Record? && e[i].key == d[i].key && e[j].key == d[j].key;
      } else {
        assert !rule.Matches(d[i].key, op.key);
      }
    }
  }

  // ---------------------------------------------------------------- loose lookups

  /** No primitive key ahead of `k` itself passes for `k`: what a caller can check before a lookup. */
  ghost predicate Faithful(d: seq<Slot>, k: Key, rule: Rule) {
    forall i :: 0 <= i < Locate(d, k, STANDARD) && d[i].Record? ==> !rule.Matches(d[i].key, k)
  }

  /** A lookup finds what the standard says exactly when no impostor precedes the key. */
  lemma LookupFaithful(d: seq<Slot>, k: Key, rule: Rule)
    ensures Locate(d, k, rule) == Locate(d, k, STANDARD) <==> Faithful(d, k, rule)
  {
    var p, q := Locate(d, k, rule), Locate(d, k, STANDARD);
    assert p <= q;
    if p < q {
      assert d[p].Record? && rule.Matches(d[p].key, k);
    }
  }

  /** Keys that are not pinned objects are always found faithfully. */
  lemma UnpinnedFaithful(d: seq<Slot>, k: Key, rule: Rule)
    requires !(k.Object? && k.id in rule.pinned)
    ensures Faithful(d, k, rule)
    ensures forall v :: SetData(d, k, v, rule) == SetData(d, k, v, STANDARD)
    ensures DeleteData(d, k, rule) == DeleteData(d, k, STANDARD)
  {
    LookupFaithful(d, k, rule);
  }

  /** A frozen object is reported present when only a string that it coerces to is a key. */
  lemma LooseLookupGoesWrong()
    ensures exists d, k, rule :: DistinctKeys(d) && Locate(d, k, STANDARD) == |d| && Locate(d, k, rule) < |d|
  {
    var name := Text("[object Object]");
    var d, k, rule := [Record(name, 1)], Object(7), Rule({7}, {(name, 7)});
    assert rule.Matches(d[0].key, k);
    assert Locate(d, k, rule) == 0 && Locate(d, k, STANDARD) == 1;
  }

  // ---------------------------------------------------------------- what changes leave behind

  /** The list after a set: the record found, or a new one at the end, has the value; all other slots are as before. */
  ghost predicate IsSet(e: seq<Slot>, d: seq<Slot>, k: Key, v: int, rule: Rule) {
    var p := Locate(d, k, rule);
    && |e| == (if p < |d| then |d| else |d| + 1)
    && Locate(e, k, rule) == p < |e|
    && e[p] == Record(if p < |d| then d[p].key else k, v)
    && forall i :: 0 <= i < |d| && i != p ==> e[i] == d[i]
  }

  /** The list after a deletion: the slot of the record found is empty; all other slots are as before. */
  ghost predicate IsDeleted(e: seq<Slot>, d: seq<Slot>, k: Key, rule: Rule) {
    var p := Locate(d, k, rule);
    && |e| == |d|
    && (p < |d| ==> e[p] == Empty)
    && forall i :: 0 <= i < |d| && i != p ==> e[i] == d[i]
  }

  ghost predicate IsCleared(e: seq<Slot>, d: seq<Slot>) {
    |e| == |d| && forall i :: 0 <= i < |d| ==> e[i] == Empty
  }

  /** What each change leaves behind. A deleted key is gone, unless another key was taken for it. */
  lemma ApplyLeaves(d: seq<Slot>, op: Op, rule: Rule)
    ensures match op
            case Set(k, v) => IsSet(Apply(d, op, rule), d, k, v, rule)
            case Delete(k) =>
              IsDeleted(Apply(d, op, rule), d, k, rule) &&
              (DistinctKeys(d) && Faithful(d, k, rule) ==> Locate(Apply(d, op, rule), k, STANDARD) == |d|)
            case Clear => IsCleared(Apply(d, op, rule), d)
  {
    if op.Set? {
      SetLeaves(d, op.key, op.value, rule);
    } else if op.Delete? {
      DeleteLeaves(d, op.key, rule);
    }
  }

  lemma SetLeaves(d: seq<Slot>, k: Key, v: int, rule: Rule)
    ensures IsSet(SetData(d, k, v, rule), d, k, v, rule)
  {
    var p, e := Locate(d, k, rule), SetData(d, k, v, rule);
    assert p < |e| && e[p].Record? && rule.Matches(e[p].key, k);
    assert forall i :: 0 <= i < p ==> e[i] == d[i];
    LocateFirst(e, k, rule, p);
  }

  /** The position found is the only one that matches with no match before it. */
  lemma LocateFirst(d: seq<Slot>, k: Key, rule: Rule, p: nat)
    requires p < |d| && d[p].Record? && rule.Matches(d[p].key, k)
    requires forall i :: 0 <= i < p ==> !(d[i].Record? && rule.Matches(d[i].key, k))
    ensures Locate(d, k, rule) == p
  {
  }

  lemma DeleteLeaves(d: seq<Slot>, k: Key, rule: Rule)
    ensures IsDeleted(DeleteData(d, k, rule), d, k, rule)
    ensures DistinctKeys(d) && Faithful(d, k, rule) ==> Locate(DeleteData(d, k, rule), k, STANDARD) == |d|
  {
    var e := DeleteData(d, k, rule);
    if DistinctKeys(d) && Faithful(d, k, rule) {
      LookupFaithful(d, k, rule);
      forall i | 0 <= i < |e| && e[i].Record?
        ensures e[i].key != k
      {
        assert e[i] == d[i];
      }
    }
  }

  /** Changes are made one after the other, in order. */
  lemma {:induction false} ApplyAllInOrder(d: seq<Slot>, ops: seq<Op>, more: seq<Op>, rule: Rule)
    ensures ApplyAll(d, ops + more, rule) == ApplyAll(ApplyAll(d, ops, rule), more, rule)
    ensures forall op :: ApplyAll(d, [op], rule) == Apply(d, op, rule)
    decreases |ops|
  {
    assert forall op: Op :: [op][1..] == [];
    if ops == [] {
      assert ops + more == more;
    } else {
      assert (ops + more)[1..] == ops[1..] + more;
      ApplyAllInOrder(Apply(d, ops[0], rule), ops[1..], more, rule);
    }
  }

  // ---------------------------------------------------------------- iteration under mutation

  /** One callback: the position visited and the record found there. */
  datatype Visit = Visit(at: nat, record: Slot)

  /** The keys and values handed to the callbacks. */
  function Shown(vs: seq<Visit>): seq<(Key, int)> {
    if vs == [] then []
    else Shown(vs[..|vs| - 1]) + (match vs[|vs| - 1].record case Record(k, v) => [(k, v)] case Empty => [])
  }

  lemma ShownSnoc(vs: seq<Visit>, v: Visit)
    requires v.record.Record?
    ensures Shown(vs + [v]) == Shown(vs) + [(v.record.key, v.record.value)]
  {
    assert (vs + [v])[..|vs|] == vs;
  }

  /** The visits of a traversal from index `i` whose t-th callback runs `scripts[t]`. */
  function Visits(d: seq<Slot>, i: nat, scripts: seq<seq<Op>>, rule: Rule): (vs: seq<Visit>)
    requires i <= |d|
    decreases |scripts|, |d| - i
  {
    var j := NextRecord(d, i);
    if j == |d| then []
    else
      var (now, later) := Next(scripts);
      ApplyAllGrows(d, now, rule);
      [Visit(j, d[j])] + Visits(ApplyAll(d, now, rule), j + 1, later, rule)
  }

  /** The script of the next callback and those after it; when none are left, callbacks do nothing. */
  function Next(scripts: seq<seq<Op>>): (r: (seq<Op>, seq<seq<Op>>))
    ensures |r.1| < |scripts| || (scripts == [] && r == ([], []))
  {
    if scripts == [] then ([], []) else (scripts[0], scripts[1..])
  }

  /** The callbacks run their scripts in order, one each. */
  lemma NextInOrder(scripts: seq<seq<Op>>)
    requires scripts != []
    ensures [Next(scripts).0] + Next(scripts).1 == scripts
  {
  }

  /** The list after that traversal. */
  function Final(d: seq<Slot>, i: nat, scripts: seq<seq<Op>>, rule: Rule): seq<Slot>
    requires i <= |d|
    decreases |scripts|, |d| - i
  {
    var j := NextRecord(d, i);
    if j == |d| then d
    else
      var (now, later) := Next(scripts);
      ApplyAllGrows(d, now, rule);
      Final(ApplyAll(d, now, rule), j + 1, later, rule)
  }

  /** `e` comes after `d`: slots keep their keys, and an emptied slot never comes back. */
  ghost predicate Later(d: seq<Slot>, e: seq<Slot>) {
    |d| <= |e| && forall i :: 0 <= i < |d| && e[i].Record? ==> d[i].Record? && d[i].key == e[i].key
  }

  lemma {:induction false} ApplyAllGrows(d: seq<Slot>, ops: seq<Op>, rule: Rule)
    ensures Later(d, ApplyAll(d, ops, rule))
    ensures ops == [] ==> ApplyAll(d, ops, rule) == d
    decreases |ops|
  {
    if ops != [] {
      ApplyAllGrows(Apply(d, ops[0], rule), ops[1..], rule);
    }
  }

  lemma VisitsUnfold(d: seq<Slot>, i: nat, scripts: seq<seq<Op>>, rule: Rule)
    requires i <= |d| && NextRecord(d, i) < |d|
    ensures var j, e, later := NextRecord(d, i), ApplyAll(d, Next(scripts).0, rule), Next(scripts).1;
            j + 1 <= |e| && Visits(d, i, scripts, rule) == [Visit(j, d[j])] + Visits(e, j + 1, later, rule) &&
            Final(d, i, scripts, rule) == Final(e, j + 1, later, rule)
  {
    ApplyAllGrows(d, Next(scripts).0, rule);
  }

  lemma Reassociate(a: seq<Visit>, v: Visit, b: seq<Visit>)
    ensures a + ([v] + b) == (a + [v]) + b
  {
  }

  /** A traversal part-way: the list, the cursor, the scripts still to run, and the visits made. */
  datatype Walk = Walk(d: seq<Slot>, at: nat, rest: seq<seq<Op>>, visits: seq<Visit>) {

    /** The walk after its next visit. */
    ghost function Step(rule: Rule): Walk
      requires at <= |d| && NextRecord(d, at) < |d|
    {
      var j := NextRecord(d, at);
      var (now, later) := Next(rest);
      Walk(ApplyAll(d, now, rule), j + 1, later, visits + [Visit(j, d[j])])
    }

    /** The walk will end as `whole` does. */
    ghost predicate LeadsTo(whole: Walk, rule: Rule) {
      match whole
      case Walk(d0, at0, rest0, visits0) =>
        at <= |d| && at0 <= |d0| &&
        visits + Visits(d, at, rest, rule) == visits0 + Visits(d0, at0, rest0, rule) &&
        Final(d, at, rest, rule) == Final(d0, at0, rest0, rule)
    }

    lemma StepLeadsTo(whole: Walk, rule: Rule)
      requires LeadsTo(whole, rule) && NextRecord(d, at) < |d|
      ensures Step(rule).LeadsTo(whole, rule)
    {
      StepSame(rule);
    }

    /** A visit does not change where the walk leads. */
    lemma StepSame(rule: Rule)
      requires at <= |d| && NextRecord(d, at) < |d|
      ensures var n := Step(rule);
              n.at <= |n.d| && n.visits + Visits(n.d, n.at, n.rest, rule) == visits + Visits(d, at, rest, rule) &&
              Final(n.d, n.at, n.rest, rule) == Final(d, at, rest, rule)
    {
      var n := Step(rule);
      VisitsUnfold(d, at, rest, rule);
      Reassociate(visits, Visit(n.at - 1, d[n.at - 1]), Visits(n.d, n.at, n.rest, rule));
    }

    lemma EndsAs(whole: Walk, rule: Rule)
      requires LeadsTo(whole, rule) && NextRecord(d, at) == |d| && whole.visits == []
      ensures visits == Visits(whole.d, whole.at, whole.rest, rule)
      ensures d == Final(whole.d, whole.at, whole.rest, rule)
    {
      var (d0, at0, rest0) := (whole.d, whole.at, whole.rest);
      assert Visits(d, at, rest, rule) == [];
      assert visits + [] == visits && [] + Visits(d0, at0, rest0, rule) == Visits(d0, at0, rest0, rule);
    }
  }

  /** One visit further: what the next walk is, and what has been shown by then. */
  lemma WalkOn(w: Walk, whole: Walk, rule: Rule, p: nat, k: Key, v: int) returns (n: Walk)
    requires w.LeadsTo(whole, rule) && p == NextRecord(w.d, w.at) < |w.d| && w.d[p] == Record(k, v)
    ensures n.LeadsTo(whole, rule) && n.d == ApplyAll(w.d, Next(w.rest).0, rule) && n.at == p + 1
    ensures n.rest == Next(w.rest).1 && Shown(n.visits) == Shown(w.visits) + [(k, v)]
  {
    w.StepLeadsTo(whole, rule);
    n := w.Step(rule);
    ShownSnoc(w.visits, Visit(p, w.d[p]));
  }

  /** Visits of records, each at a later position than the one before it, from `i` on. */
  ghost predicate Increasing(vs: seq<Visit>, i: nat) {
    && (forall t :: 0 <= t < |vs| ==> i <= vs[t].at && vs[t].record.Record?)
    && (forall s, t :: 0 <= s < t < |vs| ==> vs[s].at < vs[t].at)
  }

  lemma IncreasingCons(v: Visit, rest: seq<Visit>, i: nat)
    requires i <= v.at && v.record.Record? && Increasing(rest, v.at + 1)
    ensures Increasing([v] + rest, i)
  {
    var vs := [v] + rest;
    assert forall t :: 0 < t < |vs| ==> vs[t] == rest[t - 1];
  }

  /** Every visit is at a later position than the one before it: insertion order, and never twice. */
  lemma {:induction false} VisitsIncrease(d: seq<Slot>, i: nat, scripts: seq<seq<Op>>, rule: Rule)
    requires i <= |d|
    ensures Increasing(Visits(d, i, scripts, rule), i)
    decreases |scripts|, |d| - i
  {
    var j := NextRecord(d, i);
    if j < |d| {
      var (now, later) := Next(scripts);
      ApplyAllGrows(d, now, rule);
      VisitsIncrease(ApplyAll(d, now, rule), j + 1, later, rule);
      IncreasingCons(Visit(j, d[j]), Visits(ApplyAll(d, now, rule), j + 1, later, rule), i);
    }
  }

  /** Whether position `p` is visited. */
  ghost predicate Visited(vs: seq<Visit>, p: nat) {
    exists t :: 0 <= t < |vs| && vs[t].at == p
  }

  lemma VisitedCons(v: Visit, rest: seq<Visit>, p: nat)
    ensures Visited([v] + rest, p) <==> v.at == p || Visited(rest, p)
  {
    var vs := [v] + rest;
    if v.at == p {
      assert vs[0].at == p;
    }
    if Visited(rest, p) {
      var t :| 0 <= t < |rest| && rest[t].at == p;
      assert vs[t + 1].at == p;
    }
    if Visited(vs, p) && v.at != p {
      var t :| 0 <= t < |vs| && vs[t].at == p;
      assert rest[t - 1].at == p;
    }
  }

  /** A record ahead of the cursor that is still there at the end was visited, whether it was
      present from the start or added on the way. */
  lemma {:induction false} SurvivorsVisited(d: seq<Slot>, i: nat, scripts: seq<seq<Op>>, rule: Rule, p: nat)
    requires i <= p && i <= |d|
    requires p < |Final(d, i, scripts, rule)| && Final(d, i, scripts, rule)[p].Record?
    ensures Visited(Visits(d, i, scripts, rule), p)
    decreases |scripts|, |d| - i
  {
    var j := NextRecord(d, i);
    if j < |d| {
      var now, later := Next(scripts).0, Next(scripts).1;
      var e := ApplyAll(d, now, rule);
      ApplyAllGrows(d, now, rule);
      VisitsUnfold(d, i, scripts, rule);
      if p > j {
        SurvivorsVisited(e, j + 1, later, rule, p);
      } else {
        FinalGrows(e, j + 1, later, rule);
        StillThere(d, e, Final(e, j + 1, later, rule), p);
      }
      VisitedCons(Visit(j, d[j]), Visits(e, j + 1, later, rule), p);
    }
  }

  /** A record at the end was one all along. */
  lemma StillThere(d: seq<Slot>, e: seq<Slot>, f: seq<Slot>, p: nat)
    requires Later(d, e) && Later(e, f) && p < |d| && p < |f| && f[p].Record?
    ensures d[p].Record?
  {
  }

  lemma {:induction false} FinalGrows(d: seq<Slot>, i: nat, scripts: seq<seq<Op>>, rule: Rule)
    requires i <= |d|
    ensures Later(d, Final(d, i, scripts, rule))
    decreases |scripts|, |d| - i
  {
    var j := NextRecord(d, i);
    if j < |d| {
      var (now, later) := Next(scripts);
      ApplyAllGrows(d, now, rule);
      FinalGrows(ApplyAll(d, now, rule), j + 1, later, rule);
    }
  }

  /** A record emptied before the cursor reaches it is never visited: whatever the rest of the
      traversal does, a slot empty now is not among the positions still to come. */
  lemma {:induction false} RemovedNeverVisited(d: seq<Slot>, i: nat, scripts: seq<seq<Op>>, rule: Rule, p: nat)
    requires i <= |d| && p < |d| && d[p].Empty?
    ensures !Visited(Visits(d, i, scripts, rule), p)
    decreases |scripts|, |d| - i
  {
    var j := NextRecord(d, i);
    if j < |d| {
      var now, later := Next(scripts).0, Next(scripts).1;
      var e := ApplyAll(d, now, rule);
      ApplyAllGrows(d, now, rule);
      VisitsUnfold(d, i, scripts, rule);
      RemovedNeverVisited(e, j + 1, later, rule, p);
      VisitedCons(Visit(j, d[j]), Visits(e, j + 1, later, rule), p);
    }
  }
}
