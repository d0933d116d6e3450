/** `Array.prototype.splice` and `copyWithin` of core-js on an array that may have holes. */
module JsArray {
  import opened Wrappers
  import opened Indices

  const MAX_LENGTH := 9007199254740991

  datatype Error = TypeError

  /** The contents of an array, holes included. */
  type Contents = seq<Option<int>>

  /** An element, or a hole. */
  function Get(slots: map<int, int>, i: int): Option<int> {
    if i in slots then Some(slots[i]) else None
  }

  /** How many elements `copyWithin` copies. */
  function CopyCount(to: nat, from: nat, end: Option<int>, length: nat): (r: nat)
    requires to <= length && from <= length
    ensures to + r <= length && from + r <= length
    ensures r > 0 ==> from + r == length || to + r == length || (end.Some? && from + r == AbsoluteIndex(end.value, length))
  {
    var fin := if end.None? then length else AbsoluteIndex(end.value, length);
    var l := if fin - from < length - to then fin - from else length - to;
    if l < 0 then 0 else l
  }

  /** The arguments of `splice`, which treats missing ones differently from undefined ones. */
  datatype SpliceArgs = NoArgs | StartOnly(start: int) | Full(start: int, deleteCount: int, items: seq<int>) {

    function From(length: nat): (b: nat)
      ensures b <= length
    {
      if NoArgs? then 0 else AbsoluteIndex(start, length)
    }

    function Items(): seq<int> {
      if Full? then items else []
    }

    /** How many elements go. */
    function Removes(length: nat): (r: nat)
      ensures From(length) + r <= length
    {
      match this
      case NoArgs => 0
      case StartOnly(_) => length - From(length)
      case Full(_, k, _) =>
        var wanted := if k < 0 then 0 else k;
        if wanted < length - From(length) then wanted else length - From(length)
    }
  }

  /** An array without holes. */
  function Elements(items: seq<int>): (c: Contents)
    ensures |c| == |items| && forall i :: 0 <= i < |c| ==> c[i] == Some(items[i])
  {
    seq(|items|, i requires 0 <= i < |items| => Some(items[i]))
  }

  /** The elements of `c` at `b .. b + k` replaced by `items`. */
  function Spliced(c: Contents, b: nat, k: nat, items: seq<int>): (d: Contents)
    requires b + k <= |c|
  {
    c[..b] + Elements(items) + c[b + k..]
  }

  /** `count` elements from `from` written over those at `to`, all read before any is written. */
  function Copied(c: Contents, to: nat, from: nat, count: nat): (d: Contents)
    requires to + count <= |c| && from + count <= |c|
  {
    c[..to] + c[from..from + count] + c[to + count..]
  }

  /** What `splice` leaves and returns: nothing goes without a start, all from there on without a count, and otherwise as
      many as the count says and there are; the items stand in their place. */
  ghost predicate Replaces(args: SpliceArgs, before: Contents, after: Contents, removed: Contents) {
    match args
    case NoArgs => removed == [] && after == before
    case StartOnly(start) =>
      var b := AbsoluteIndex(start, |before|);
      removed == before[b..] && after == before[..b]
    case Full(start, count, items) =>
      var b := AbsoluteIndex(start, |before|);
      && removed <= before[b..]
      && (|removed| == count || (count < 0 && removed == []) || (count > |removed| && removed == before[b..]))
      && after == before[..b] + Elements(items) + before[b + |removed|..]
  }

  lemma SplicedReplaces(args: SpliceArgs, c: Contents)
    ensures var b, k := args.From(|c|), args.Removes(|c|);
            Replaces(args, c, Spliced(c, b, k, args.Items()), c[b..b + k])
  {
    var b, k := args.From(|c|), args.Removes(|c|);
    assert c[..b] + Elements([]) + c[b..] == c && c[..b] + Elements([]) + c[|c|..] == c[..b];
    assert c[b..][..k] == c[b..b + k];
  }

  /** Some `splice` of elements undoes a `splice` exactly when there was no hole among what it removed. */
  lemma SpliceBack(c: Contents, b: nat, k: nat, items: seq<int>)
    requires b + k <= |c|
    ensures (exists back :: Spliced(Spliced(c, b, k, items), b, |items|, back) == c) <==>
      forall i :: b <= i < b + k ==> c[i].Some?
  {
    var d := Spliced(c, b, k, items);
    assert d[..b] == c[..b] && d[b + |items|..] == c[b + k..];
    forall back | Spliced(d, b, |items|, back) == c
      ensures forall i :: b <= i < b + k ==> c[i].Some?
    {
      assert |back| == k;
      assert forall i :: b <= i < b + k ==> Spliced(d, b, |items|, back)[i] == Elements(back)[i - b];
    }
    if forall i :: b <= i < b + k ==> c[i].Some? {
      var back := seq(k, j requires 0 <= j < k => c[b + j].value);
      assert Elements(back) == c[b..b + k];
      assert Spliced(d, b, |items|, back) == c;
    }
  }

  /** `now` is `was` with the slots `lo .. hi` taken from those at `from` onwards. */
  ghost predicate Block(now: map<int, int>, was: map<int, int>, lo: int, hi: int, from: int) {
    forall i {:trigger Get(now, i)} :: Get(now, i) == if lo <= i < hi then Get(was, i - lo + from) else Get(was, i)
  }

  /** `next` is `now` with the slot `from` written over the slot `to`. */
  ghost predicate Moved(next: map<int, int>, now: map<int, int>, to: int, from: int) {
    forall i {:trigger Get(next, i)} :: Get(next, i) == if i == to then Get(now, from) else Get(now, i)
  }

  lemma BlockUp(next: map<int, int>, now: map<int, int>, was: map<int, int>, lo: int, hi: int, from: int)
    requires lo <= hi && (from >= lo || from + hi - lo < lo)
    requires Block(now, was, lo, hi, from) && Moved(next, now, hi, from + hi - lo)
    ensures Block(next, was, lo, hi + 1, from)
  {
  }

  lemma BlockDown(next: map<int, int>, now: map<int, int>, was: map<int, int>, lo: int, hi: int, from: int)
    requires lo <= hi && from < lo
    requires Block(now, was, lo, hi, from) && Moved(next, now, lo - 1, from - 1)
    ensures Block(next, was, lo - 1, hi, from - 1)
  {
  }

  /** `now` is `was` without the slots from `lo` on. */
  ghost predicate Cleared(now: map<int, int>, was: map<int, int>, lo: int) {
    forall i {:trigger Get(now, i)} :: Get(now, i) == if lo <= i then None else Get(was, i)
  }

  /** The tail of `was`, `k` slots from `b` on left out, now begins at `b + n`. */
  ghost predicate Shifted(now: map<int, int>, was: map<int, int>, length: nat, b: nat, n: nat, k: nat) {
    && (forall i {:trigger Get(now, i)} :: i < b ==> Get(now, i) == Get(was, i))
    && (forall i {:trigger Get(now, i)} :: b + n <= i < length - k + n ==> Get(now, i) == Get(was, i - n + k))
    && (forall i {:trigger Get(now, i)} :: i >= length - k + n ==> Get(now, i) == None)
  }

  /** `now` is `was` with `items` at `b` onwards. */
  ghost predicate Filled(now: map<int, int>, was: map<int, int>, b: nat, items: seq<int>) {
    forall i {:trigger Get(now, i)} :: Get(now, i) == if b <= i < b + |items| then Some(items[i - b]) else Get(was, i)
  }

  ghost predicate Within(slots: map<int, int>, length: nat) {
    forall i {:trigger Get(slots, i)} :: Get(slots, i).Some? ==> 0 <= i < length
  }

  function View(slots: map<int, int>, length: nat): (c: Contents)
    ensures |c| == length && forall i :: 0 <= i < length ==> c[i] == Get(slots, i)
  {
    seq(length, i => Get(slots, i))
  }

  /** Shifting the tail and then filling the gap is replacing. */
  lemma ShiftAndFill(now: map<int, int>, shifted: map<int, int>, was: map<int, int>, length: nat, b: nat, k: nat, items: seq<int>)
    requires b + k <= length && Within(was, length)
    requires Shifted(shifted, was, length, b, |items|, k) && Filled(now, shifted, b, items)
    ensures Within(now, length - k + |items|)
    ensures View(now, length - k + |items|) == Spliced(View(was, length), b, k, items)
  {
  }

  /** A block written over is a simultaneous copy. */
  lemma BlockCopied(now: map<int, int>, was: map<int, int>, length: nat, to: nat, from: nat, count: nat)
    requires to + count <= length && from + count <= length && Within(was, length)
    requires Block(now, was, to, to + count, from)
    ensures Within(now, length)
    ensures View(now, length) == Copied(View(was, length), to, from, count)
  {
  }

  class ArrayObject {
    var slots: map<int, int>
    var length: nat

    ghost predicate Valid()
      reads this
    {
      Within(slots, length)
    }

    ghost function Contents(): Contents
      reads this
    {
      View(slots, length)
    }

    /** A new array of `n` holes. */
    constructor (n: nat)
      ensures Valid() && length == n && slots == map[]
    {
      slots, length := map[], n;
    }

    method Put(k: int, value: int)
      modifies this`slots
      ensures forall i :: Get(slots, i) == (if i == k then Some(value) else Get(old(slots), i))
    {
      slots := slots[k := value];
    }

    method Remove(k: int)
      modifies this`slots
      ensures forall i :: Get(slots, i) == (if i == k then None else Get(old(slots), i))
    {
      slots := slots - {k};
    }

    /** Moves an element, or the hole in its place. */
    method Move(to: int, from: int)
      modifies this`slots
      ensures Moved(slots, old(slots), to, from)
    {
      if from in slots {
        Put(to, slots[from]);
      } else {
        Remove(to);
      }
    }

    method SetLength(n: nat)
      requires Within(slots, n)
      modifies this`length
      ensures length == n && Valid()
    {
      length := n;
    }

    method Splice(args: SpliceArgs) returns (r: Result<ArrayObject, Error>)
      requires Valid()
      modifies this
      ensures r.Ok? ==> Replaces(args, old(Contents()), Contents(), r.value.Contents())
      ensures var b, n, k := args.From(old(length)), |args.Items()|, args.Removes(old(length));
              if old(length) + n - k > 9007199254740991 then r == Fail(TypeError) && slots == old(slots) && length == old(length)
              else r.Ok? && fresh(r.value) && r.value.Valid() && Valid() &&
                   r.value.Contents() == old(Contents())[b..b + k] &&
                   Contents() == Spliced(old(Contents()), b, k, args.Items())
    {
      SplicedReplaces(args, Contents());
      var y, items := length, args.Items();
      var b, n, k := args.From(y), |items|, args.Removes(y);
      if y + n - k > MAX_LENGTH {
        return Fail(TypeError);
      }
      var f := new ArrayObject(k);
      CopyOut(f, b, k);
      Replace(b, k, items);
      SetLength(y - k + n);
      r := Ok(f);
    }

    /** The tail moves to where the items will end, and the items go in; the length is still the old one. */
    method Replace(b: nat, k: nat, items: seq<int>)
      requires Valid() && b + k <= length
      modifies this`slots
      ensures Within(slots, length - k + |items|)
      ensures View(slots, length - k + |items|) == Spliced(old(Contents()), b, k, items)
    {
      var n := |items|;
      if n < k {
        ShiftDown(b, n, k);
      } else if n > k {
        ShiftUp(b, n, k);
      }
      ghost var shifted := slots;
      FillIn(b, items);
      ShiftAndFill(slots, shifted, old(slots), length, b, k, items);
    }

    /** Copies the elements that go into the array to be returned. */
    method CopyOut(f: ArrayObject, b: nat, k: nat)
      requires f != this && f.slots == map[] && f.length == k
      requires b + k <= length
      modifies f`slots
      ensures f.Valid() && f.Contents() == Contents()[b..b + k]
    {
      var h := 0;
      while h < k
        invariant 0 <= h <= k
        invariant forall i {:trigger Get(f.slots, i)} :: Get(f.slots, i) == if 0 <= i < h then Get(slots, b + i) else None
      {
        if b + h in slots {
          f.Put(h, slots[b + h]);
        }
        h := h + 1;
      }
    }

    /** Fewer elements come than go: the tail moves down, then its old end is deleted. */
    method ShiftDown(b: nat, n: nat, k: nat)
      requires Valid() && n < k && b + k <= length
      modifies this`slots
      ensures Shifted(slots, old(slots), length, b, n, k)
    {
      var h := b;
      while h < length - k
        invariant b <= h <= length - k
        invariant Block(slots, old(slots), b + n, h + n, b + k)
      {
        Move(h + n, h + k);
        h := h + 1;
      }
      ghost var moved := slots;
      h := length;
      while h > length - k + n
        invariant length - k + n <= h <= length
        invariant Cleared(slots, moved, h)
      {
        Remove(h - 1);
        h := h - 1;
      }
    }

    /** More elements come than go: the tail moves up, from its end. */
    method ShiftUp(b: nat, n: nat, k: nat)
      requires Valid() && n > k && b + k <= length
      modifies this`slots
      ensures Shifted(slots, old(slots), length, b, n, k)
    {
      var h := length - k;
      while h > b
        invariant b <= h <= length - k
        invariant Block(slots, old(slots), h + n, length - k + n, h + k)
      {
        Move(h + n - 1, h + k - 1);
        h := h - 1;
      }
    }

    /** The items go in at `b`. */
    method FillIn(b: nat, items: seq<int>)
      modifies this`slots
      ensures Filled(slots, old(slots), b, items)
    {
      var h := 0;
      while h < |items|
        invariant 0 <= h <= |items|
        invariant Filled(slots, old(slots), b, items[..h])
      {
        Put(h + b, items[h]);
        h := h + 1;
      }
    }

    method CopyWithin(target: int, start: int, end: Option<int>)
      requires Valid()
      modifies this`slots
      ensures Valid()
      ensures var to, from := AbsoluteIndex(target, length), AbsoluteIndex(start, length);
              Contents() == Copied(old(Contents()), to, from, CopyCount(to, from, end, length))
      ensures var to, from := AbsoluteIndex(target, length), AbsoluteIndex(start, length);
              var fin := if end.None? then length else AbsoluteIndex(end.value, length);
              forall j :: 0 <= j < length ==>
                Contents()[j] == old(Contents())[if to <= j && from + (j - to) < fin then from + (j - to) else j]
    {
      var u, s := AbsoluteIndex(target, length), AbsoluteIndex(start, length);
      var l := CopyCount(u, s, end, length);
      CopyBlock(u, s, l);
      BlockCopied(slots, old(slots), length, u, s, l);
    }

    /** Upwards, or downwards when an upward copy would read what it has written. */
    method CopyBlock(to: nat, from: nat, count: nat)
      modifies this`slots
      ensures Block(slots, old(slots), to, to + count, from)
    {
      var u: int, s: int, l, p := to, from, count, 1;
      if s < u && u < s + l {
        p, s, u := -1, s + l - 1, u + l - 1;
      }
      while l > 0
        invariant 0 <= l <= count
        invariant p == 1 || p == -1
        invariant p == 1 ==> u == to + count - l && s == from + count - l && (from >= to || from + count <= to)
        invariant p == 1 ==> Block(slots, old(slots), to, u, from)
        invariant p == -1 ==> u == to + l - 1 && s == from + l - 1 && from < to
        invariant p == -1 ==> Block(slots, old(slots), u + 1, to + count, s + 1)
      {
        ghost var now := slots;
        Move(u, s);
        if p == 1 {
          BlockUp(slots, now, old(slots), to, u, from);
        } else {
          BlockDown(slots, now, old(slots), u + 1, to + count, s + 1);
        }
        l, u, s := l - 1, u + p, s + p;
      }
    }
  }
}
