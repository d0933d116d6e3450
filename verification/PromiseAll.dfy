/** `Promise.all` of core-js: a countdown over items whose promises may call back at any time,
    synchronously, more than once, or never.

    `Outcome` says what the result should be by looking only at which calls were made.
 */
module PromiseAll {

  /** What happens, in order: the loop takes an item, an item's promise calls back, the loop ends,
      or taking the next item throws. */
  datatype Event =
    | TakeItem
    | Fulfil(item: nat, value: int)
    | Reject(item: nat, reason: int)
    | EndOfItems
    | Throw(error: int)

  datatype Outcome = Pending | Resolved(values: seq<int>) | Rejected(reason: int)

  // ---------------------------------------------------------------- what should happen

  /** The items taken so far. */
  function Items(t: seq<Event>): nat {
    if t == [] then 0 else Items(t[..|t| - 1]) + (if t[|t| - 1].TakeItem? then 1 else 0)
  }

  /** The first value item `u` was fulfilled with. */
  function FirstValue(t: seq<Event>, u: nat): (v: seq<int>)
    ensures |v| <= 1
  {
    if t == [] then []
    else
      var before := FirstValue(t[..|t| - 1], u);
      var e := t[|t| - 1];
      if before == [] && e.Fulfil? && e.item == u then [e.value] else before
  }

  /** The loop has ended and every item has been fulfilled. */
  ghost predicate Complete(t: seq<Event>) {
    Event.EndOfItems in t && forall u :: 0 <= u < Items(t) ==> FirstValue(t, u) != []
  }

  function Values(t: seq<Event>, n: nat): (vs: seq<int>)
    requires forall u :: 0 <= u < n ==> FirstValue(t, u) != []
    ensures |vs| == n && forall u :: 0 <= u < n ==> FirstValue(t, u) == [vs[u]]
  {
    seq(n, u requires 0 <= u < n => FirstValue(t, u)[0])
  }

  /** The first of: some item rejects, taking an item throws, everything is fulfilled. */
  ghost function Expected(t: seq<Event>): Outcome {
    if t == [] then Pending
    else
      var before, e := Expected(t[..|t| - 1]), t[|t| - 1];
      if before != Pending then before
      else if e.Reject? then Rejected(e.reason)
      else if e.Throw? then Rejected(e.error)
      else if Complete(t) then Resolved(Values(t, Items(t)))
      else Pending
  }

  /** Nothing rejects or throws. */
  predicate Clean(t: seq<Event>) {
    forall j :: 0 <= j < |t| ==> !t[j].Reject? && !t[j].Throw?
  }

  /** The result is resolved exactly when everything was fulfilled at some point before which nothing rejected or
      threw; it has the values of that point. */
  lemma ResolvedMeans(t: seq<Event>)
    ensures Expected(t).Resolved? <==> exists i :: 0 < i <= |t| && Complete(t[..i]) && Clean(t[..i])
    ensures Expected(t).Resolved? ==>
              exists i :: 0 < i <= |t| && Complete(t[..i]) && Clean(t[..i]) &&
                          Expected(t) == Resolved(Values(t[..i], Items(t[..i])))
  {
    if Expected(t).Resolved? {
      var _ := ResolvedAt(t);
    }
    forall i | 0 < i <= |t| && Complete(t[..i]) && Clean(t[..i])
      ensures Expected(t).Resolved?
    {
      CleanOutcome(t[..i]);
      if Expected(t[..i]) == Pending {
        PendingMeans(t[..i]);
      }
      Decided(t, i);
    }
  }

  lemma {:induction false} ResolvedAt(t: seq<Event>) returns (i: nat)
    requires Expected(t).Resolved?
    ensures 0 < i <= |t| && Complete(t[..i]) && Clean(t[..i]) && Expected(t) == Resolved(Values(t[..i], Items(t[..i])))
  {
    var n := |t| - 1;
    if Expected(t[..n]) == Pending {
      PendingMeans(t[..n]);
      i := n + 1;
      assert t[..i] == t;
    } else {
      i := ResolvedAt(t[..n]);
      assert t[..n][..i] == t[..i];
    }
  }

  /** What has been decided stays so. */
  lemma {:induction false} Decided(t: seq<Event>, i: nat)
    requires i <= |t| && Expected(t[..i]) != Pending
    ensures Expected(t) == Expected(t[..i])
    decreases |t|
  {
    if i == |t| {
      assert t[..i] == t;
    } else {
      assert t[..|t| - 1][..i] == t[..i];
      Decided(t[..|t| - 1], i);
    }
  }

  lemma {:induction false} CleanOutcome(t: seq<Event>)
    requires Clean(t)
    ensures !Expected(t).Rejected?
  {
    if t != [] {
      CleanOutcome(t[..|t| - 1]);
    }
  }

  /** The result is rejected exactly when something rejects or throws before everything is fulfilled. */
  lemma RejectedMeans(t: seq<Event>)
    ensures Expected(t).Rejected? <==>
              exists i :: 0 <= i < |t| && (t[i].Reject? || t[i].Throw?) && forall j :: 0 < j <= i ==> !Complete(t[..j])
  {
    if Expected(t).Rejected? {
      var _ := RejectedAt(t);
    }
    forall i | 0 <= i < |t| && (t[i].Reject? || t[i].Throw?) && forall j :: 0 < j <= i ==> !Complete(t[..j])
      ensures Expected(t).Rejected?
    {
      RejectsFirst(t, i);
    }
  }

  lemma RejectsFirst(t: seq<Event>, i: nat)
    requires i < |t| && (t[i].Reject? || t[i].Throw?) && forall j :: 0 < j <= i ==> !Complete(t[..j])
    ensures Expected(t).Rejected?
  {
    assert forall j :: 0 < j <= i ==> t[..i][..j] == t[..j];
    NeverComplete(t[..i]);
    assert t[..i + 1][..i] == t[..i] && t[..i + 1][i] == t[i];
    Decided(t, i + 1);
  }

  lemma {:induction false} NeverComplete(t: seq<Event>)
    requires forall j :: 0 < j <= |t| ==> !Complete(t[..j])
    ensures !Expected(t).Resolved?
  {
    if t != [] {
      var n := |t| - 1;
      assert t[..n + 1] == t;
      assert forall j :: 0 < j <= n ==> t[..n][..j] == t[..j];
      NeverComplete(t[..n]);
    }
  }

  lemma {:induction false} RejectedAt(t: seq<Event>) returns (i: nat)
    requires Expected(t).Rejected?
    ensures i < |t| && (t[i].Reject? || t[i].Throw?) && forall j :: 0 < j <= i ==> !Complete(t[..j])
  {
    var n := |t| - 1;
    if Expected(t[..n]) == Pending {
      i := n;
      PendingNever(t[..n]);
      assert forall j :: 0 < j <= i ==> t[..n][..j] == t[..j];
    } else {
      i := RejectedAt(t[..n]);
      assert forall j :: 0 < j <= i ==> t[..n][..j] == t[..j];
    }
  }

  lemma {:induction false} PendingNever(t: seq<Event>)
    requires Expected(t) == Pending
    ensures forall j :: 0 < j <= |t| ==> !Complete(t[..j])
  {
    if t != [] {
      var n := |t| - 1;
      PendingMeans(t);
      PendingNever(t[..n]);
      assert t[..n + 1] == t;
      assert forall j :: 0 < j <= n ==> t[..n][..j] == t[..j];
    }
  }

  lemma {:induction false} PendingMeans(t: seq<Event>)
    requires Expected(t) == Pending
    ensures !Complete(t) || t == []
    ensures forall j :: 0 <= j < |t| ==> !t[j].Reject? && !t[j].Throw?
  {
    if t != [] {
      PendingMeans(t[..|t| - 1]);
    }
  }

  // ---------------------------------------------------------------- the countdown

  /** The number of items not yet fulfilled. */
  function Outstanding(settled: seq<bool>): nat {
    if settled == [] then 0 else Outstanding(settled[..|settled| - 1]) + (if settled[|settled| - 1] then 0 else 1)
  }

  lemma {:induction false} OutstandingDrops(settled: seq<bool>, u: nat)
    requires u < |settled| && !settled[u]
    ensures Outstanding(settled[u := true]) == Outstanding(settled) - 1
  {
    var n := |settled| - 1;
    var after := settled[u := true];
    if u == n {
      assert after[..n] == settled[..n];
    } else {
      assert after[..n] == settled[..n][u := true];
      OutstandingDrops(settled[..n], u);
    }
  }

  lemma {:induction false} NoneOutstanding(settled: seq<bool>)
    ensures Outstanding(settled) == 0 <==> forall u :: 0 <= u < |settled| ==> settled[u]
  {
    if settled != [] {
      var n := |settled| - 1;
      NoneOutstanding(settled[..n]);
      assert forall u :: 0 <= u < n ==> settled[..n][u] == settled[u];
    }
  }

  /** The table of first values as the two arrays hold it. */
  ghost predicate Tabulates(t: seq<Event>, called: seq<bool>, values: seq<int>) {
    |values| == |called| == Items(t) &&
    forall u: nat :: FirstValue(t, u) == if u < |called| && called[u] then [values[u]] else []
  }

  lemma CompleteWhen(t: seq<Event>, called: seq<bool>, values: seq<int>)
    requires Tabulates(t, called, values)
    ensures Complete(t) <==> Event.EndOfItems in t && Outstanding(called) == 0
    ensures Complete(t) ==> Values(t, Items(t)) == values
  {
    NoneOutstanding(called);
    assert forall u :: 0 <= u < |called| ==> (called[u] <==> FirstValue(t, u) != []);
  }

  lemma ExpectedSnoc(t: seq<Event>, e: Event)
    ensures Expected(t + [e]) ==
      if Expected(t) != Pending then Expected(t)
      else if e.Reject? then Rejected(e.reason)
      else if e.Throw? then Rejected(e.error)
      else if Complete(t + [e]) then Resolved(Values(t + [e], Items(t + [e])))
      else Pending
  {
    assert (t + [e])[..|t|] == t;
  }

  /** While the loop runs nothing is complete yet. */
  lemma ExpectedLooping(t: seq<Event>, e: Event)
    requires Event.EndOfItems !in t && (e.TakeItem? || e.Throw?)
    ensures Expected(t + [e]) == if Expected(t) == Pending && e.Throw? then Rejected(e.error) else Expected(t)
  {
    ExpectedSnoc(t, e);
    assert Event.EndOfItems !in t + [e];
  }

  lemma TabulatesSnoc(t: seq<Event>, e: Event, called: seq<bool>, values: seq<int>)
    requires Tabulates(t, called, values) && !e.Fulfil?
    ensures Tabulates(t + [e], if e.TakeItem? then called + [false] else called, if e.TakeItem? then values + [0] else values)
  {
    assert (t + [e])[..|t|] == t;
    forall u: nat
      ensures FirstValue(t + [e], u) == FirstValue(t, u)
    {
    }
  }

  lemma TabulatesFulfil(t: seq<Event>, u: nat, v: int, called: seq<bool>, values: seq<int>)
    requires Tabulates(t, called, values) && u < |called|
    ensures Tabulates(t + [Event.Fulfil(u, v)], called[u := true], if called[u] then values else values[u := v])
  {
    var after, now := t + [Event.Fulfil(u, v)], if called[u] then values else values[u := v];
    assert after[..|t|] == t;
    forall w: nat
      ensures FirstValue(after, w) == if w < |called| && called[u := true][w] then [now[w]] else []
    {
      assert FirstValue(t, w) == if w < |called| && called[w] then [values[w]] else [];
    }
  }

  /** A second fulfilment of an item decides nothing. */
  lemma RepeatedFulfil(t: seq<Event>, u: nat, v: int, called: seq<bool>, values: seq<int>)
    requires Tabulates(t, called, values) && u < |called| && called[u]
    ensures Expected(t + [Event.Fulfil(u, v)]) == Expected(t)
  {
    var after := t + [Event.Fulfil(u, v)];
    ExpectedSnoc(t, Event.Fulfil(u, v));
    TabulatesFulfil(t, u, v, called, values);
    assert called[u := true] == called;
    CompleteWhen(t, called, values);
    CompleteWhen(after, called, values);
    assert Event.EndOfItems in after <==> Event.EndOfItems in t;
    if Expected(t) == Pending {
      PendingMeans(t);
    }
  }

  lemma OneMoreOutstanding(called: seq<bool>)
    ensures Outstanding(called + [false]) == Outstanding(called) + 1
  {
    assert (called + [false])[..|called|] == called;
  }

  datatype Phase = Looping | Ended | Failed

  class All {
    /** `i`, `c` and the flags `s` of the source. */
    var values: seq<int>
    var remaining: int
    var called: seq<bool>
    var phase: Phase
    var outcome: Outcome
    ghost var history: seq<Event>

    ghost predicate Valid()
      reads this
    {
      Tabulates(history, called, values) && Counted() &&
      (phase.Ended? <==> Event.EndOfItems in history) &&
      outcome == Expected(history)
    }

    constructor ()
      ensures Valid() && history == [] && phase == Looping
    {
      values, remaining, called, phase, outcome, history := [], 1, [], Looping, Pending, [];
    }

    /** The counter: one for the running loop, and one for each item not fulfilled yet. */
    ghost predicate Counted()
      reads this
    {
      remaining == Outstanding(called) + (if phase.Ended? then 0 else 1)
    }

    /** The result promise keeps the first call of its resolve or reject function. */
    method Settle(o: Outcome)
      modifies this`outcome
      ensures outcome == if old(outcome) == Pending then o else old(outcome)
    {
      if outcome == Pending {
        outcome := o;
      }
    }

    method TakeItem()
      requires Valid() && phase.Looping?
      modifies this
      ensures Valid() && history == old(history) + [Event.TakeItem] && phase == old(phase)
    {
      ExpectedLooping(history, Event.TakeItem);
      TabulatesSnoc(history, Event.TakeItem, called, values);
      OneMoreOutstanding(called);
      history := history + [Event.TakeItem];
      values, called := values + [0], called + [false];
      remaining := remaining + 1;
    }

    /** An item's promise fulfils. */
    method Fulfil(u: nat, v: int)
      requires Valid() && u < |called|
      modifies this
      ensures Valid() && history == old(history) + [Event.Fulfil(u, v)] && phase == old(phase)
    {
      if !called[u] {
        FirstFulfil(u, v);
      } else {
        RepeatedFulfil(history, u, v, called, values);
        TabulatesFulfil(history, u, v, called, values);
        assert called[u := true] == called;
        history := history + [Event.Fulfil(u, v)];
      }
    }

    method FirstFulfil(u: nat, v: int)
      requires Valid() && u < |called| && !called[u]
      modifies this
      ensures Valid() && history == old(history) + [Event.Fulfil(u, v)] && phase == old(phase)
    {
      TabulatesFulfil(history, u, v, called, values);
      OutstandingDrops(called, u);
      history := history + [Event.Fulfil(u, v)];
      called, values := called[u := true], values[u := v];
      CountDown(old(history), Event.Fulfil(u, v));
    }

    /** One fewer to wait for: the last one resolves the result. */
    method CountDown(ghost t: seq<Event>, ghost e: Event)
      requires history == t + [e] && Tabulates(history, called, values) && (phase.Ended? <==> Event.EndOfItems in history)
      requires remaining == Outstanding(called) + (if phase.Ended? then 0 else 1) + 1
      requires !e.Reject? && !e.Throw? && outcome == Expected(t)
      modifies this`remaining, this`outcome
      ensures Counted() && outcome == Expected(history)
    {
      ExpectedSnoc(t, e);
      CompleteWhen(history, called, values);
      remaining := remaining - 1;
      if remaining == 0 {
        Settle(Resolved(values));
      }
    }

    /** An item's promise rejects. */
    method Reject(u: nat, e: int)
      requires Valid() && u < |called|
      modifies this
      ensures Valid() && history == old(history) + [Event.Reject(u, e)] && phase == old(phase)
    {
      ExpectedSnoc(history, Event.Reject(u, e));
      TabulatesSnoc(history, Event.Reject(u, e), called, values);
      history := history + [Event.Reject(u, e)];
      Settle(Rejected(e));
    }

    method EndOfItems()
      requires Valid() && phase.Looping?
      modifies this
      ensures Valid() && history == old(history) + [Event.EndOfItems] && phase == Ended
    {
      TabulatesSnoc(history, Event.EndOfItems, called, values);
      history := history + [Event.EndOfItems];
      phase := Ended;
      CountDown(old(history), Event.EndOfItems);
    }

    method Throw(e: int)
      requires Valid() && phase.Looping?
      modifies this
      ensures Valid() && history == old(history) + [Event.Throw(e)] && phase == Failed
    {
      ExpectedLooping(history, Event.Throw(e));
      TabulatesSnoc(history, Event.Throw(e), called, values);
      history := history + [Event.Throw(e)];
      phase := Failed;
      Settle(Rejected(e));
    }
  }
}
