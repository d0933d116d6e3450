/** The microtask queue of Zone.js: batches swapped out while they are drained, a drain when the
    outermost task ends, and a drain requested from the host when nothing else will do it.
 */
module Microtasks {

  /** What user code does: schedule a microtask, with the code it will run and whether that ends by
      throwing, or have a task invoked within. */
  datatype Command = Schedule(id: nat, body: seq<Command>, throws: bool) | Invoke(inner: seq<Command>)

  type Microtask = c: Command | c.Schedule? witness Schedule(0, [], false)

  // ---------------------------------------------------------------- what should happen

  /** The microtasks a piece of code schedules, in order, nested invocations included. */
  function Scheduled(body: seq<Command>): seq<Microtask> {
    if body == [] then []
    else
      (match body[0]
       case Schedule(_, _, _) => [body[0]]
       case Invoke(inner) => Scheduled(inner)) + Scheduled(body[1..])
  }

  /** The size of a queue, counting everything its tasks will ever schedule. */
  function Weight(q: seq<Microtask>): nat {
    if q == [] then 0 else 1 + Work(q[0].body) + Weight(q[1..])
  }

  function Work(body: seq<Command>): nat {
    if body == [] then 0
    else
      (match body[0]
       case Schedule(_, later, _) => 1 + Work(later)
       case Invoke(inner) => 1 + Work(inner)) + Work(body[1..])
  }

  lemma {:induction false} WeightSum(q: seq<Microtask>, r: seq<Microtask>)
    ensures Weight(q + r) == Weight(q) + Weight(r)
  {
    if q == [] {
      assert q + r == r;
    } else {
      assert (q + r)[1..] == q[1..] + r;
      WeightSum(q[1..], r);
    }
  }

  lemma {:induction false} ScheduledWeight(body: seq<Command>)
    ensures Weight(Scheduled(body)) <= Work(body)
  {
    if body != [] {
      ScheduledWeight(body[1..]);
      match body[0]
      case Schedule(_, _, _) =>
        WeightSum([body[0]], Scheduled(body[1..]));
        assert [body[0]][1..] == [];
      case Invoke(inner) =>
        ScheduledWeight(inner);
        WeightSum(Scheduled(inner), Scheduled(body[1..]));
    }
  }

  /** First in, first out: each microtask runs once, and what it schedules goes to the end. */
  function Order(q: seq<Microtask>): seq<Microtask>
    decreases Weight(q)
  {
    if q == [] then []
    else
      ScheduledWeight(q[0].body);
      WeightSum(q[1..], Scheduled(q[0].body));
      [q[0]] + Order(q[1..] + Scheduled(q[0].body))
  }

  function Ids(q: seq<Microtask>): (ids: seq<nat>)
    ensures |ids| == |q|
  {
    if q == [] then [] else [q[0].id] + Ids(q[1..])
  }

  /** The microtasks that end by throwing, in order. */
  function Failing(q: seq<Microtask>): seq<nat> {
    if q == [] then []
    else Failing(q[..|q| - 1]) + if q[|q| - 1].throws then [q[|q| - 1].id] else []
  }

  /** Every microtask that a piece of code gives rise to, directly or through other microtasks. */
  function Arising(body: seq<Command>): multiset<nat> {
    if body == [] then multiset{}
    else
      (match body[0]
       case Schedule(id, later, _) => multiset{id} + Arising(later)
       case Invoke(inner) => Arising(inner)) + Arising(body[1..])
  }

  function ArisingFrom(q: seq<Microtask>): multiset<nat> {
    if q == [] then multiset{} else multiset{q[0].id} + Arising(q[0].body) + ArisingFrom(q[1..])
  }

  lemma {:induction false} ArisingSum(q: seq<Microtask>, r: seq<Microtask>)
    ensures ArisingFrom(q + r) == ArisingFrom(q) + ArisingFrom(r)
  {
    if q == [] {
      assert q + r == r;
    } else {
      assert (q + r)[1..] == q[1..] + r;
      ArisingSum(q[1..], r);
    }
  }

  lemma {:induction false} ArisingScheduled(body: seq<Command>)
    ensures ArisingFrom(Scheduled(body)) == Arising(body)
  {
    if body != [] {
      ArisingScheduled(body[1..]);
      match body[0]
      case Schedule(_, _, _) =>
        ArisingSum([body[0]], Scheduled(body[1..]));
        assert [body[0]][1..] == [];
      case Invoke(inner) =>
        ArisingScheduled(inner);
        ArisingSum(Scheduled(inner), Scheduled(body[1..]));
    }
  }

  /** Every microtask that arises is dispatched exactly once. */
  lemma {:induction false} DispatchedOnce(q: seq<Microtask>)
    ensures multiset(Ids(Order(q))) == ArisingFrom(q)
    decreases Weight(q)
  {
    if q != [] {
      var rest := q[1..] + Scheduled(q[0].body);
      ScheduledWeight(q[0].body);
      WeightSum(q[1..], Scheduled(q[0].body));
      DispatchedOnce(rest);
      ArisingSum(q[1..], Scheduled(q[0].body));
      ArisingScheduled(q[0].body);
      assert Order(q) == [q[0]] + Order(rest);
    }
  }

  /** First in, first out: what waits in front is dispatched, in its order, before anything that
      comes later, whatever the tasks schedule on the way. */
  lemma {:induction false} FrontFirst(q: seq<Microtask>, r: seq<Microtask>)
    ensures q <= Order(q + r)
    decreases |q|
  {
    if q != [] {
      var s := Scheduled(q[0].body);
      assert (q + r)[0] == q[0] && (q + r)[1..] + s == q[1..] + (r + s);
      FrontFirst(q[1..], r + s);
    }
  }

  /** Whether code asks the host for a drain, when it runs outside any invocation on an empty queue: the first microtask it
      schedules must not be scheduled within an invocation. */
  predicate Asks(body: seq<Command>) {
    body != [] && (body[0].Schedule? || (Scheduled(body[0].inner) == [] && Asks(body[1..])))
  }

  /** How often the host is asked while a batch is drained outside any invocation, and then the queue behind it. */
  function Requests(batch: seq<Microtask>, queue: seq<Microtask>): nat
    decreases Weight(batch + queue), if batch == [] then 1 else 0
  {
    if batch == [] then
      assert batch + queue == queue + [];
      if queue == [] then 0 else Requests(queue, [])
    else
      RequestsStep(batch, queue);
      (if queue == [] && Asks(batch[0].body) then 1 else 0) + Requests(batch[1..], queue + Scheduled(batch[0].body))
  }

  lemma RequestsStep(batch: seq<Microtask>, queue: seq<Microtask>)
    requires batch != []
    ensures Weight(batch[1..] + (queue + Scheduled(batch[0].body))) < Weight(batch + queue)
  {
    ScheduledWeight(batch[0].body);
    WeightSum(batch[1..], queue + Scheduled(batch[0].body));
    WeightSum(queue, Scheduled(batch[0].body));
    WeightSum(batch, queue);
  }

  // ---------------------------------------------------------------- the queue

  class Queue {
    /** The queue `g`, the draining flag `k`, the nesting depth `I`, and the drains the host still owes. */
    var queue: seq<Microtask>
    var draining: bool
    var depth: nat
    var requested: nat
    /** The tasks dispatched so far and those among them whose error was reported. */
    var dispatched: seq<Microtask>
    var reported: seq<nat>

    /** Every error of a microtask was reported, in order, and nothing else. */
    predicate Reported()
      reads this
    {
      reported == Failing(dispatched)
    }

    /** No wake-up is lost: waiting tasks will be reached by the invocation in progress, by the
        drain in progress, or by the host. */
    predicate Awake()
      reads this
    {
      queue != [] ==> depth > 0 || draining || requested > 0
    }

    constructor ()
      ensures Awake() && Reported() && queue == [] && !draining && depth == 0 && requested == 0 && dispatched == []
    {
      queue, draining, depth, requested, dispatched, reported := [], false, 0, 0, [], [];
    }

    /** `scheduleMicroTask`. */
    method ScheduleMicrotask(m: Microtask)
      requires Awake()
      modifies this`queue, this`requested
      ensures Awake() && queue == old(queue) + [m]
      ensures requested == old(requested) + (if depth == 0 && old(queue) == [] then 1 else 0)
    {
      if depth == 0 && queue == [] {
        requested := requested + 1;
      }
      queue := queue + [m];
    }

    /** How often the host will be asked on the way; within an invocation it never is. */
    function Further(batch: seq<Microtask>, waiting: seq<Microtask>): nat
      reads this`depth
    {
      if depth > 0 then 0 else Requests(batch, waiting)
    }

    /** Runs a piece of user code inside an invocation or a drain. */
    method Execute(body: seq<Command>)
      requires Awake() && (depth > 0 || draining) && (draining || Reported())
      modifies this`queue, this`depth, this`requested, this`draining, this`dispatched, this`reported
      ensures Awake() && depth == old(depth) && draining == old(draining)
      ensures requested == old(requested) + (if depth == 0 && old(queue) == [] && Asks(body) then 1 else 0)
      ensures queue == old(queue) + Scheduled(body)
      ensures dispatched == old(dispatched) && reported == old(reported)
      decreases if draining then 0 else 1, Work(body), 1
    {
      if body == [] {
        return;
      }
      ghost var first: seq<Microtask>;
      match body[0] {
        case Schedule(_, _, _) =>
          first := [body[0]];
          ScheduleMicrotask(body[0]);
        case Invoke(inner) =>
          first := Scheduled(inner);
          InvokeTask(inner);
      }
      assert Scheduled(body) == first + Scheduled(body[1..]);
      Execute(body[1..]);
      assert queue == old(queue) + (first + Scheduled(body[1..]));
    }

    /** `invokeTask`: the outermost invocation drains the queue before it leaves. */
    method InvokeTask(body: seq<Command>)
      requires Awake() && (draining || Reported())
      modifies this`queue, this`depth, this`requested, this`draining, this`dispatched, this`reported
      ensures Awake() && depth == old(depth) && draining == old(draining) && requested == old(requested)
      ensures if old(depth) > 0 || old(draining)
              then queue == old(queue) + Scheduled(body) && dispatched == old(dispatched) && reported == old(reported)
              else queue == [] && dispatched == old(dispatched) + Order(old(queue) + Scheduled(body)) && Reported()
      decreases if draining then 0 else 1, Work(body), 2
    {
      depth := depth + 1;
      Execute(body);
      if depth == 1 {
        Drain();
      }
      depth := depth - 1;
    }

    /** `drainMicroTaskQueue`: runs batch after batch until nothing is left. A drain within a drain
        does nothing; an error is reported and the batch goes on. */
    method Drain()
      requires draining || Reported()
      modifies this`queue, this`depth, this`requested, this`draining, this`dispatched, this`reported
      ensures Awake() && depth == old(depth) && draining == old(draining)
      ensures requested == old(requested) + (if old(draining) then 0 else Further(old(queue), []))
      ensures if old(draining) then queue == old(queue) && dispatched == old(dispatched) && reported == old(reported)
              else queue == [] && dispatched == old(dispatched) + Order(old(queue)) && Reported()
      decreases if draining then 0 else 1, 0, 0
    {
      if draining {
        return;
      }
      draining := true;
      while queue != []
        invariant draining && depth == old(depth) && Reported()
        invariant requested + Further(queue, []) == old(requested) + old(Further(queue, []))
        invariant dispatched + Order(queue) == old(dispatched) + Order(old(queue))
        decreases Weight(queue)
      {
        var batch := queue;
        queue := [];
        DrainBatch(batch);
      }
      draining := false;
    }

    /** Runs one batch; what its tasks schedule waits in the queue for the next one. */
    method DrainBatch(batch: seq<Microtask>)
      requires draining && queue == [] && Reported()
      modifies this`queue, this`depth, this`requested, this`draining, this`dispatched, this`reported
      ensures draining && depth == old(depth) && Reported()
      ensures requested + Further(queue, []) == old(requested) + Further(batch, [])
      ensures dispatched + Order(queue) == old(dispatched) + Order(batch)
      ensures batch != [] ==> Weight(queue) < Weight(batch)
      decreases if draining then 0 else 1, Weight(batch), 3
    {
      ghost var all := old(dispatched) + Order(batch);
      assert batch[0..] + queue == batch;
      for n := 0 to |batch|
        invariant draining && depth == old(depth) && Reported()
        invariant requested + Further(batch[n..], queue) == old(requested) + Further(batch, [])
        invariant dispatched + Order(batch[n..] + queue) == all
        invariant Weight(batch[n..] + queue) + n <= Weight(batch)
      {
        var task := batch[n];
        assert batch[n..][0] == task && batch[n..][1..] == batch[n + 1..];
        BatchStep(batch, n, queue, dispatched);
        Dispatch(task, batch);
      }
      assert batch[|batch|..] + queue == queue && batch[|batch|..] == [];
    }

    /** Runs one microtask; its error is reported and goes no further. */
    method Dispatch(task: Microtask, ghost batch: seq<Microtask>)
      requires draining && Reported() && Work(task.body) < Weight(batch)
      modifies this`queue, this`depth, this`requested, this`draining, this`dispatched, this`reported
      ensures draining && depth == old(depth) && Reported()
      ensures requested == old(requested) + (if depth == 0 && old(queue) == [] && Asks(task.body) then 1 else 0)
      ensures dispatched == old(dispatched) + [task] && queue == old(queue) + Scheduled(task.body)
      decreases if draining then 0 else 1, Weight(batch), 2
    {
      FailingSnoc(dispatched, task);
      dispatched := dispatched + [task];
      Execute(task.body);
      if task.throws {
        reported := reported + [task.id];
      }
    }

    /** The drain the host was asked for. */
    method HostDrain()
      requires Awake() && Reported() && requested > 0 && depth == 0 && !draining
      modifies this
      ensures Awake() && Reported() && depth == 0 && !draining
      ensures queue == [] && dispatched == old(dispatched) + Order(old(queue))
      ensures requested == old(requested) - 1 + Requests(old(queue), [])
    {
      requested := requested - 1;
      Drain();
    }
  }

  lemma FailingSnoc(q: seq<Microtask>, m: Microtask)
    ensures Failing(q + [m]) == Failing(q) + if m.throws then [m.id] else []
  {
    assert (q + [m])[..|q|] == q;
  }

  /** Taking the next task of a batch: what it schedules lands behind the rest of the batch. */
  lemma BatchStep(batch: seq<Microtask>, n: nat, queue: seq<Microtask>, dispatched: seq<Microtask>)
    requires n < |batch|
    ensures var after := batch[n + 1..] + (queue + Scheduled(batch[n].body));
            dispatched + Order(batch[n..] + queue) == (dispatched + [batch[n]]) + Order(after) &&
            Weight(after) + 1 <= Weight(batch[n..] + queue)
    ensures Work(batch[n].body) < Weight(batch)
  {
    WorkWithin(batch, n);
    var q, s := batch[n..] + queue, Scheduled(batch[n].body);
    RestOfBatch(batch, n, queue, s);
    TakeFirst(q, s, dispatched);
  }

  lemma RestOfBatch(batch: seq<Microtask>, n: nat, queue: seq<Microtask>, s: seq<Microtask>)
    requires n < |batch|
    ensures var q := batch[n..] + queue; q[0] == batch[n] && q[1..] + s == batch[n + 1..] + (queue + s)
  {
  }

  lemma WorkWithin(batch: seq<Microtask>, n: nat)
    requires n < |batch|
    ensures Work(batch[n].body) < Weight(batch)
  {
    assert batch[..n] + batch[n..] == batch;
    WeightSum(batch[..n], batch[n..]);
  }

  lemma TakeFirst(q: seq<Microtask>, s: seq<Microtask>, dispatched: seq<Microtask>)
    requires q != [] && s == Scheduled(q[0].body)
    ensures dispatched + Order(q) == (dispatched + [q[0]]) + Order(q[1..] + s)
    ensures Weight(q[1..] + s) + 1 <= Weight(q)
  {
    ScheduledWeight(q[0].body);
    WeightSum(q[1..], s);
    var later := Order(q[1..] + s);
    assert dispatched + ([q[0]] + later) == (dispatched + [q[0]]) + later;
  }
}
