/** How one core-js promise settles: `done` tokens, thenable unwrapping through jobs, and reactions.

    The environment is adversarial: every holder of a pair of resolving functions may call them at
    any time, any number of times, with anything. `Follow` says what should come of such a history
    without mentioning flags: the promise listens to one pair of functions at a time, and the
    first call on it decides.
 */
module CorePromise {

  /** What a resolving function can be called with. */
  datatype Value =
    | Plain(n: int)
    | Itself
    | Thenable(id: nat)
    | Poisoned(error: int)

  /** The reason of the rejection when a promise is resolved with itself. */
  const TYPE_ERROR := -1

  /** One step of the outside world; token 0 belongs to the executor's pair of functions, token k+1
      to the pair handed to the k-th thenable. An exception out of the executor or out of a `then`
      method is a call of that pair's reject function. */
  datatype Event = Resolve(token: nat, value: Value) | Reject(token: nat, reason: int) | RunJob

  datatype Fate =
    | Open(token: nat)
    | Waiting(token: nat, thenable: nat)
    | Fulfilled(value: int)
    | Rejected(reason: int)
  {
    predicate Settled() {
      Fulfilled? || Rejected?
    }
  }

  // ---------------------------------------------------------------- what should happen

  /** Listening to token `k`: the first call on it decides. */
  function Follow(t: seq<Event>, k: nat): Fate {
    if t == [] then Open(k)
    else match t[0]
      case Resolve(j, v) =>
        if j != k then Follow(t[1..], k)
        else (match v
              case Plain(n) => Fulfilled(n)
              case Itself => Rejected(TYPE_ERROR)
              case Poisoned(e) => Rejected(e)
              case Thenable(id) => Await(t[1..], k, id))
      case Reject(j, e) => if j != k then Follow(t[1..], k) else Rejected(e)
      case RunJob => Follow(t[1..], k)
  }

  /** Locked in to a thenable: nothing counts until its job runs and creates the next token. */
  function Await(t: seq<Event>, k: nat, id: nat): Fate {
    if t == [] then Waiting(k, id)
    else if t[0].RunJob? then Follow(t[1..], k + 1)
    else Await(t[1..], k, id)
  }

  /** Whether `e` calls one of the functions of token `k`. */
  predicate Calls(e: Event, k: nat) {
    (e.Resolve? || e.Reject?) && e.token == k
  }

  /** One more event. */
  function After(f: Fate, e: Event): Fate {
    match f
    case Open(k) =>
      if !Calls(e, k) then f
      else if e.Reject? then Rejected(e.reason)
      else (match e.value
            case Plain(n) => Fulfilled(n)
            case Itself => Rejected(TYPE_ERROR)
            case Poisoned(r) => Rejected(r)
            case Thenable(id) => Waiting(k, id))
    case Waiting(k, id) => if e.RunJob? then Open(k + 1) else f
    case _ => f
  }

  lemma {:induction false} FollowSnoc(t: seq<Event>, e: Event, k: nat)
    ensures Follow(t + [e], k) == After(Follow(t, k), e)
    decreases |t|
  {
    if t == [] {
      assert [] + [e] == [e] && [e][1..] == [];
    } else {
      assert (t + [e])[1..] == t[1..] + [e];
      FollowSnoc(t[1..], e, k);
      if t[0].Resolve? && t[0].value.Thenable? {
        AwaitSnoc(t[1..], e, k, t[0].value.id);
      }
    }
  }

  lemma {:induction false} AwaitSnoc(t: seq<Event>, e: Event, k: nat, id: nat)
    ensures Await(t + [e], k, id) == After(Await(t, k, id), e)
    decreases |t|
  {
    if t == [] {
      assert [] + [e] == [e] && [e][1..] == [];
    } else {
      assert (t + [e])[1..] == t[1..] + [e];
      AwaitSnoc(t[1..], e, k, id);
      FollowSnoc(t[1..], e, k + 1);
    }
  }

  /** Once settled, whatever else happens changes neither the state nor the value. */
  lemma {:induction false} SettledForever(t: seq<Event>, u: seq<Event>, k: nat)
    requires Follow(t, k).Settled()
    ensures Follow(t + u, k) == Follow(t, k)
    decreases |u|
  {
    if u == [] {
      assert t + u == t;
    } else {
      var n := |u| - 1;
      SettledForever(t, u[..n], k);
      FollowSnoc(t + u[..n], u[n], k);
      assert (t + u[..n]) + [u[n]] == t + u;
    }
  }

  /** Token `m` has been created, and has nothing left to decide. Once settled, no token matters any more. */
  predicate Created(f: Fate, m: nat) {
    match f
    case Open(k) => m <= k
    case Waiting(k, _) => m <= k
    case _ => true
  }

  predicate Spent(f: Fate, m: nat) {
    match f
    case Open(k) => m < k
    case Waiting(k, _) => m <= k
    case _ => true
  }

  /** The first call on a created token spends it, and it stays spent. */
  lemma {:induction false} SpentByCall(t: seq<Event>, i: nat, j: nat, m: nat, k: nat)
    requires i < j <= |t| && Calls(t[i], m) && Created(Follow(t[..i], k), m)
    ensures Spent(Follow(t[..j], k), m)
    decreases j
  {
    assert t[..j] == t[..j - 1] + [t[j - 1]];
    FollowSnoc(t[..j - 1], t[j - 1], k);
    if i < j - 1 {
      SpentByCall(t, i, j - 1, m, k);
    }
  }

  /** Histories that end alike go on alike. */
  lemma {:induction false} SameFuture(a: seq<Event>, b: seq<Event>, u: seq<Event>, k: nat)
    requires Follow(a, k) == Follow(b, k)
    ensures Follow(a + u, k) == Follow(b + u, k)
    decreases |u|
  {
    if u == [] {
      assert a + u == a && b + u == b;
    } else {
      var n := |u| - 1;
      SameFuture(a, b, u[..n], k);
      FollowSnoc(a + u[..n], u[n], k);
      FollowSnoc(b + u[..n], u[n], k);
      assert (a + u[..n]) + [u[n]] == a + u && (b + u[..n]) + [u[n]] == b + u;
    }
  }

  /** A call on a spent token can be dropped from the history, whatever follows. */
  lemma SpentIgnored(t: seq<Event>, j: nat, m: nat, k: nat)
    requires j < |t| && Calls(t[j], m) && Spent(Follow(t[..j], k), m)
    ensures Follow(t[..j] + t[j + 1..], k) == Follow(t, k)
  {
    FollowSnoc(t[..j], t[j], k);
    SameFuture(t[..j] + [t[j]], t[..j], t[j + 1..], k);
    assert t[..j] + [t[j]] + t[j + 1..] == t;
  }

  lemma {:induction false} EarlierSpent(t: seq<Event>, m: nat, k: nat)
    requires m < k
    ensures Spent(Follow(t, k), m)
    decreases |t|
  {
    if t != [] {
      assert t == t[..|t| - 1] + [t[|t| - 1]];
      EarlierSpent(t[..|t| - 1], m, k);
      FollowSnoc(t[..|t| - 1], t[|t| - 1], k);
    }
  }

  /** Calls on the functions of an earlier link of the chain change nothing any more. */
  lemma IgnoredLater(t: seq<Event>, j: nat, earlier: nat, k: nat)
    requires j < |t| && Calls(t[j], earlier) && earlier < k
    ensures Follow(t[..j] + t[j + 1..], k) == Follow(t, k)
  {
    EarlierSpent(t[..j], earlier, k);
    SpentIgnored(t, j, earlier, k);
  }

  /** Of all calls on the functions of one token, anywhere in the chain, only the first after its creation matters:
      drop any later one, and the history ends the same way. */
  lemma FirstCallWins(t: seq<Event>, i: nat, j: nat, m: nat, k: nat)
    requires i < j < |t| && Calls(t[i], m) && Calls(t[j], m) && Created(Follow(t[..i], k), m)
    ensures Follow(t[..j] + t[j + 1..], k) == Follow(t, k)
  {
    SpentByCall(t, i, j, m, k);
    SpentIgnored(t, j, m, k);
  }

  // ---------------------------------------------------------------- the promise

  datatype Job = Unwrap(thenable: nat) | Notify

  /** A reaction that was called: its identity, and the state and value it saw. */
  datatype Call = Call(reaction: nat, state: nat, value: int)

  function Reactions(calls: seq<Call>): (ids: seq<nat>)
    ensures |ids| == |calls|
  {
    seq(|calls|, i requires 0 <= i < |calls| => calls[i].reaction)
  }

  /** The number of resolving functions that still do something. */
  function Unconsumed(done: seq<bool>): nat {
    if done == [] then 0 else Unconsumed(done[..|done| - 1]) + (if done[|done| - 1] then 0 else 1)
  }

  /** The queued jobs that will hand out another token. */
  function Unwraps(jobs: seq<Job>): seq<Job> {
    if jobs == [] then [] else (if jobs[0].Unwrap? then [jobs[0]] else []) + Unwraps(jobs[1..])
  }

  /** What the first `n` reactions register. */
  function Registered(nested: seq<seq<nat>>, n: nat): seq<nat> {
    if n == 0 then [] else Registered(nested, n - 1) + (if n <= |nested| then nested[n - 1] else [])
  }

  lemma {:induction false} NoneUnconsumed(done: seq<bool>)
    requires forall i :: 0 <= i < |done| ==> done[i]
    ensures Unconsumed(done) == 0
  {
    if done != [] {
      NoneUnconsumed(done[..|done| - 1]);
    }
  }

  class Promise {
    /** The flag of each token ever created; flag 0 is the promise record's own. */
    var done: seq<bool>
    var state: nat
    var value: int
    var notified: bool
    var reactions: seq<nat>
    var jobs: seq<Job>
    var calls: seq<Call>
    ghost var history: seq<Event>
    ghost var registered: seq<nat>

    ghost predicate AllDone(n: nat)
      requires n <= |done|
      reads this
    {
      forall i :: 0 <= i < n ==> done[i]
    }

    /** The fields are as the history of calls says. */
    ghost predicate Tracks()
      reads this
    {
      match Follow(history, 0)
      case Open(k) => state == 0 && |done| == k + 1 && AllDone(k) && !done[k] && jobs == []
      case Waiting(k, id) => state == 0 && |done| == k + 1 && AllDone(k + 1) && jobs == [Unwrap(id)]
      case Fulfilled(v) => state == 1 && value == v && AllDone(|done|) && jobs == (if notified then [Notify] else [])
      case Rejected(v) => state == 2 && value == v && AllDone(|done|) && jobs == (if notified then [Notify] else [])
    }

    ghost predicate Valid()
      reads this
    {
      Tracks() &&
      registered == Reactions(calls) + reactions &&
      (state == 0 ==> calls == [] && !notified) &&
      (state != 0 && reactions != [] ==> notified) &&
      (forall i :: 0 <= i < |calls| ==> calls[i].state == state && calls[i].value == value)
    }

    constructor ()
      ensures Valid() && history == [] && registered == [] && Follow(history, 0) == Open(0)
    {
      done, state, value, notified := [false], 0, 0, false;
      reactions, jobs, calls, history, registered := [], [], [], [], [];
    }

    /** While pending there is exactly one unconsumed token or queued unwrapping job; once settled, none. */
    lemma OneLiveToken()
      requires Valid()
      ensures Unconsumed(done) + |Unwraps(jobs)| == (if state == 0 then 1 else 0)
      ensures state == 0 <==> !Follow(history, 0).Settled()
    {
      if Follow(history, 0).Open? {
        NoneUnconsumed(done[..|done| - 1]);
      } else {
        NoneUnconsumed(done);
      }
    }

    /** The tokens handed out are the created ones, as long as the promise is pending. */
    lemma HandedOut(k: nat)
      requires Valid() && state == 0
      ensures k < |done| <==> Created(Follow(history, 0), k)
      ensures k < |done| ==> (done[k] <==> Spent(Follow(history, 0), k))
    {
    }

    /** Sets the outcome and queues the reactions. */
    method Settle(newState: nat, v: int)
      modifies this`state, this`value, this`notified, this`jobs
      ensures state == newState && value == v && notified
      ensures jobs == if old(notified) then old(jobs) else old(jobs) + [Notify]
    {
      value, state := v, newState;
      Announce();
    }

    /** Queues a notification unless one is queued already. */
    method Announce()
      modifies this`notified, this`jobs
      ensures notified && jobs == if old(notified) then old(jobs) else old(jobs) + [Notify]
    {
      if !notified {
        notified, jobs := true, jobs + [Notify];
      }
    }

    /** The resolve function of token `k`. */
    method Resolve(k: nat, v: Value)
      requires Valid() && k < |done|
      modifies this
      ensures Valid() && history == old(history) + [Event.Resolve(k, v)]
      ensures registered == old(registered)
      ensures if old(done[k]) then state == old(state) && value == old(value) && jobs == old(jobs)
              else old(state) == 0 && k < |done| && done[k] &&
                   match v
                   case Plain(n) => state == 1 && value == n
                   case Itself => state == 2 && value == TYPE_ERROR
                   case Poisoned(e) => state == 2 && value == e
                   case Thenable(id) => state == 0 && jobs == [Unwrap(id)]
    {
      FollowSnoc(history, Event.Resolve(k, v), 0);
      history := history + [Event.Resolve(k, v)];
      if done[k] {
        return;
      }
      done := done[k := true];
      match v
      case Plain(n) => Settle(1, n);
      case Itself => Settle(2, TYPE_ERROR);
      case Poisoned(e) => Settle(2, e);
      case Thenable(id) => jobs := jobs + [Unwrap(id)];
    }

    /** The reject function of token `k`. */
    method Reject(k: nat, e: int)
      requires Valid() && k < |done|
      modifies this
      ensures Valid() && history == old(history) + [Event.Reject(k, e)]
      ensures registered == old(registered)
      ensures if old(done[k]) then state == old(state) && value == old(value) && jobs == old(jobs)
              else old(state) == 0 && k < |done| && done[k] && state == 2 && value == e
    {
      FollowSnoc(history, Event.Reject(k, e), 0);
      history := history + [Event.Reject(k, e)];
      if !done[k] {
        done := done[k := true];
        Settle(2, e);
      }
    }

    /** `then`: registers a reaction. */
    method Then(id: nat)
      requires Valid()
      modifies this
      ensures Valid() && history == old(history) && registered == old(registered) + [id]
    {
      reactions, registered := reactions + [id], registered + [id];
      if state != 0 {
        Announce();
      }
    }

    /** Runs the next job. In a notification the t-th reaction registers the reactions `nested[t]`. */
    method RunJob(nested: seq<seq<nat>>)
      requires Valid()
      modifies this
      ensures Valid() && history == old(history) + [Event.RunJob]
      ensures old(calls) <= calls && registered == old(registered) + Registered(nested, |calls| - |old(calls)|)
      ensures old(jobs) == [Notify] ==> jobs == [] && reactions == [] && Reactions(calls) == registered
      ensures state == old(state) && (state != 0 ==> value == old(value))
      ensures if old(jobs) != [] && old(jobs)[0].Unwrap? then done == old(done) + [false] else done == old(done)
    {
      FollowSnoc(history, Event.RunJob, 0);
      history := history + [Event.RunJob];
      if jobs == [] {
        return;
      }
      var job := jobs[0];
      jobs := jobs[1..];
      match job
      case Unwrap(_) => done := done + [false];
      case Notify => CallReactions(nested);
    }

    /** A reaction sees the state and the value. */
    method CallOne(id: nat)
      modifies this`calls
      ensures calls == old(calls) + [Call(id, state, value)] && Reactions(calls) == Reactions(old(calls)) + [id]
    {
      calls := calls + [Call(id, state, value)];
    }

    /** The reactions that a reaction registers. */
    method Register(ids: seq<nat>)
      modifies this`reactions, this`registered
      ensures reactions == old(reactions) + ids && registered == old(registered) + ids
    {
      reactions, registered := reactions + ids, registered + ids;
    }

    method CallReactions(nested: seq<seq<nat>>)
      requires state != 0 && notified && jobs == []
      requires registered == Reactions(calls) + reactions
      requires forall i :: 0 <= i < |calls| ==> calls[i].state == state && calls[i].value == value
      modifies this`calls, this`reactions, this`registered, this`notified
      ensures reactions == [] && !notified && Reactions(calls) == registered
      ensures old(calls) <= calls && registered == old(registered) + Registered(nested, |calls| - |old(calls)|)
      ensures forall i :: 0 <= i < |calls| ==> calls[i].state == state && calls[i].value == value
    {
      var a := 0;
      while a < |reactions|
        invariant a <= |reactions|
        invariant registered == Reactions(calls) + reactions[a..] && registered == old(registered) + Registered(nested, a)
        invariant old(calls) <= calls && |calls| == |old(calls)| + a
        invariant forall i :: 0 <= i < |calls| ==> calls[i].state == state && calls[i].value == value
        decreases if a < |nested| then |nested| - a else 0, |reactions| - a
      {
        CallOne(reactions[a]);
        a := a + 1;
        if a <= |nested| {
          Register(nested[a - 1]);
        }
      }
      assert reactions[a..] == [];
      reactions, notified := [], false;
    }
  }
}
