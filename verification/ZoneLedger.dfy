/** The task bookkeeping of Zone.js on values: what each step of the runtime does to the tasks, the
    per-delegate counts and the control stack, and the invariant all of them keep.

    User code runs between two steps. It may start any step that its discipline allows, so the
    reachable states cover every callback, hook and exception.
 */
module ZoneLedger {

  datatype TaskType = Micro | Macro | Event

  datatype TaskState = NotScheduled | Scheduling | Scheduled | Running | Canceling | Unknown

  /** `_zoneDelegates`: null, or an array with its identity and the delegates in it. */
  datatype DelegateList = Null | List(id: nat, items: seq<nat>)

  /** A task; `counted` says whether its last count update was an increment. `zone` is -1 for none. */
  datatype Task = Task(ty: TaskType, periodic: bool, state: TaskState, zone: int, list: DelegateList, runCount: nat, counted: bool) {
    /** Event tasks and periodic ones go back to being scheduled after a run. */
    predicate Repeats() {
      ty.Event? || periodic
    }
  }

  /** A call in progress: `scheduleTask` with its array; `runTask` with whether it moved the task to
      running, the task that was current before, and its zone; `cancelTask`. */
  datatype Frame =
    | Schedules(task: nat, id: nat)
    | Runs(task: nat, moved: bool, previous: int, zone: nat)
    | Cancels(task: nat)

  datatype Tally = Tally(micro: int, macro: int, event: int) {
    function Of(ty: TaskType): int {
      match ty case Micro => micro case Macro => macro case Event => event
    }

    function Plus(ty: TaskType, n: int): (r: Tally)
      ensures forall u :: r.Of(u) == Of(u) + (if u == ty then n else 0)
    {
      match ty
      case Micro => this.(micro := micro + n)
      case Macro => this.(macro := macro + n)
      case Event => this.(event := event + n)
    }
  }

  /** `current` is the running task or -1; `zones` is the stack of zone frames, innermost last. */
  datatype State = State(tasks: seq<Task>, tallies: seq<Tally>, stack: seq<Frame>, zones: seq<nat>, current: int, next: nat)

  datatype Outcome = Done | Ignored | Threw

  // ---------------------------------------------------------------- counting

  function Multiplicity(items: seq<nat>, d: nat): nat {
    if items == [] then 0 else Multiplicity(items[..|items| - 1], d) + (if items[|items| - 1] == d then 1 else 0)
  }

  /** What one task contributes to the count of delegate `d` for a type. */
  function Share(t: Task, d: nat, ty: TaskType): nat {
    if t.counted && t.ty == ty && t.list.List? then Multiplicity(t.list.items, d) else 0
  }

  /** What all tasks together contribute. */
  function Owed(tasks: seq<Task>, d: nat, ty: TaskType): nat {
    if tasks == [] then 0 else Owed(tasks[..|tasks| - 1], d, ty) + Share(tasks[|tasks| - 1], d, ty)
  }

  lemma {:induction false} OwedUpdate(tasks: seq<Task>, i: nat, t: Task, d: nat, ty: TaskType)
    requires i < |tasks|
    ensures Owed(tasks[i := t], d, ty) == Owed(tasks, d, ty) - Share(tasks[i], d, ty) + Share(t, d, ty)
  {
    var n := |tasks| - 1;
    var after := tasks[i := t];
    if i == n {
      assert after[..n] == tasks[..n];
    } else {
      assert after[..n] == tasks[..n][i := t];
      OwedUpdate(tasks[..n], i, t, d, ty);
    }
  }

  /** Each delegate's count is exactly what the counted tasks owe it, so it is never negative. */
  ghost predicate Conserved(tasks: seq<Task>, tallies: seq<Tally>) {
    forall d, ty :: 0 <= d < |tallies| ==> tallies[d].Of(ty) == Owed(tasks, d, ty)
  }

  /** Adds `n` to the count of every delegate in a list, once per occurrence. */
  function Bump(tallies: seq<Tally>, items: seq<nat>, ty: TaskType, n: int): (r: seq<Tally>)
    requires forall k :: 0 <= k < |items| ==> items[k] < |tallies|
    ensures |r| == |tallies|
  {
    if items == [] then tallies
    else
      var d := items[|items| - 1];
      var r := Bump(tallies, items[..|items| - 1], ty, n);
      r[d := r[d].Plus(ty, n)]
  }

  lemma {:induction false} BumpAdds(tallies: seq<Tally>, items: seq<nat>, ty: TaskType, n: int, d: nat, u: TaskType)
    requires forall k :: 0 <= k < |items| ==> items[k] < |tallies|
    requires d < |tallies|
    ensures Bump(tallies, items, ty, n)[d].Of(u) == tallies[d].Of(u) + (if u == ty then n * Multiplicity(items, d) else 0)
  {
    if items != [] {
      var rest := items[..|items| - 1];
      BumpAdds(tallies, rest, ty, n, d, u);
      var m := Multiplicity(rest, d);
      assert n * (m + 1) == n * m + n;
    }
  }

  // ---------------------------------------------------------------- the invariant

  predicate IsRunOf(f: Frame, t: nat) {
    f.Runs? && f.task == t
  }

  /** The run that took the task from scheduled to running. */
  predicate MovedBy(f: Frame, t: nat) {
    IsRunOf(f, t) && f.moved
  }

  predicate IsScheduleOf(f: Frame, t: nat) {
    f.Schedules? && f.task == t
  }

  /** One task on its own: its array and whether it is counted follow from its state, except that a
      task whose cancellation failed stays counted. */
  ghost predicate TaskOk(s: State, t: nat)
    requires t < |s.tasks|
  {
    var k := s.tasks[t];
    (k.list.List? ==> k.list.id < s.next && forall j :: 0 <= j < |k.list.items| ==> k.list.items[j] < |s.tallies|) &&
    (k.counted ==> k.list.List?) &&
    match k.state
    case NotScheduled => !k.counted && k.list == Null
    case Scheduling =>
      !k.counted && k.list.List? &&
      exists i :: 0 <= i < |s.stack| && s.stack[i] == Schedules(t, k.list.id) &&
                  forall j :: i < j < |s.stack| ==> !IsScheduleOf(s.stack[j], t)
    case Scheduled => k.counted
    case Running => k.counted && exists i :: 0 <= i < |s.stack| && MovedBy(s.stack[i], t)
    case Canceling => k.counted && exists i :: 0 <= i < |s.stack| && s.stack[i] == Cancels(t)
    case Unknown => true
  }

  /** The frame does not schedule the task on the array that the task has now. */
  predicate Superseded(s: State, t: nat, f: Frame)
    requires t < |s.tasks|
  {
    IsScheduleOf(f, t) && s.tasks[t].list.List? ==> s.tasks[t].list.id != f.id
  }

  /** One frame: what the task it is about may have become in the meantime. */
  ghost predicate FrameOk(s: State, i: nat)
    requires i < |s.stack|
  {
    var f := s.stack[i];
    f.task < |s.tasks| &&
    match f
    case Schedules(t, id) =>
      id < s.next && (s.tasks[t].list.List? && s.tasks[t].list.id == id ==> s.tasks[t].state.Scheduling?) &&
      forall j :: i < j < |s.stack| && s.stack[j].Schedules? ==> id < s.stack[j].id
    case Runs(t, _, previous, _) =>
      previous == CurrentOf(s.stack[..i]) && forall j :: 0 <= j < i ==> Superseded(s, t, s.stack[j])
    case Cancels(t) =>
      s.tasks[t].state.Canceling? && forall j :: i < j < |s.stack| ==> !IsRunOf(s.stack[j], t) && s.stack[j] != Cancels(t)
  }

  /** The zone frames and the current task, as the running calls on the stack determine them. */
  function ZonesOf(stack: seq<Frame>): (zs: seq<nat>)
    ensures |zs| > 0
  {
    if stack == [] then [0]
    else if stack[|stack| - 1].Runs? then ZonesOf(stack[..|stack| - 1]) + [stack[|stack| - 1].zone]
    else ZonesOf(stack[..|stack| - 1])
  }

  function CurrentOf(stack: seq<Frame>): int {
    if stack == [] then -1
    else if stack[|stack| - 1].Runs? then stack[|stack| - 1].task
    else CurrentOf(stack[..|stack| - 1])
  }

  ghost predicate Inv(s: State) {
    match s
    case State(tasks, tallies, stack, zones, current, _) =>
      Conserved(tasks, tallies) &&
      (forall t :: 0 <= t < |tasks| ==> TaskOk(s, t)) &&
      (forall i :: 0 <= i < |stack| ==> FrameOk(s, i)) &&
      zones == ZonesOf(stack) && current == CurrentOf(stack)
  }

  // ---------------------------------------------------------------- the steps

  /** Whether `z` is `a` or below it in the zone tree; `tree` gives each zone's parent, -1 for the root. */
  function Under(tree: seq<int>, z: int, a: int): bool
    requires forall k :: 0 <= k < |tree| ==> -1 <= tree[k] < k
    requires z < |tree|
    decreases z
  {
    z >= 0 && (z == a || Under(tree, tree[z], a))
  }

  /** A chain of zones, each the parent of the one before it. */
  ghost predicate Chain(tree: seq<int>, p: seq<int>) {
    && p != [] && (forall i :: 0 <= i < |p| ==> 0 <= p[i] < |tree|)
    && forall i :: 0 < i < |p| ==> p[i] == tree[p[i - 1]]
  }

  ghost predicate ChainFrom(tree: seq<int>, z: int, a: int, p: seq<int>) {
    Chain(tree, p) && p[0] == z && p[|p| - 1] == a
  }

  /** A chain of parents leads from `z` to `a`. */
  ghost predicate Below(tree: seq<int>, z: int, a: int) {
    exists p :: ChainFrom(tree, z, a, p)
  }

  lemma {:induction false} UnderMeans(tree: seq<int>, z: int, a: int)
    requires forall k :: 0 <= k < |tree| ==> -1 <= tree[k] < k
    requires z < |tree|
    ensures Under(tree, z, a) <==> Below(tree, z, a)
    decreases z
  {
    if z >= 0 && z == a {
      assert ChainFrom(tree, z, a, [z]);
    } else if z >= 0 {
      UnderMeans(tree, tree[z], a);
      if p :| ChainFrom(tree, tree[z], a, p) {
        assert ChainFrom(tree, z, a, [z] + p);
      }
      if p :| ChainFrom(tree, z, a, p) {
        assert ChainFrom(tree, tree[z], a, p[1..]);
      }
    }
  }

  function Pop(s: State): State
    requires s.stack != []
  {
    s.(stack := s.stack[..|s.stack| - 1])
  }

  function Top(s: State): Frame
    requires s.stack != []
  {
    s.stack[|s.stack| - 1]
  }

  ghost predicate ItemsKnown(s: State, t: nat)
    requires t < |s.tasks|
  {
    s.tasks[t].list.List? ==> forall j :: 0 <= j < |s.tasks[t].list.items| ==> s.tasks[t].list.items[j] < |s.tallies|
  }

  /** `_updateTaskCount` with +1: the array stays with the task. */
  ghost function CountUp(s: State, t: nat): State
    requires t < |s.tasks| && s.tasks[t].list.List? && ItemsKnown(s, t)
  {
    var k := s.tasks[t];
    s.(tallies := Bump(s.tallies, k.list.items, k.ty, 1), tasks := s.tasks[t := k.(counted := true)])
  }

  /** `_updateTaskCount` with -1: the task loses its array. */
  ghost function CountDown(s: State, t: nat): State
    requires t < |s.tasks| && s.tasks[t].list.List? && ItemsKnown(s, t)
  {
    var k := s.tasks[t];
    s.(tallies := Bump(s.tallies, k.list.items, k.ty, -1), tasks := s.tasks[t := k.(counted := false, list := Null)])
  }

  function BeginSchedule(s: State, z: nat, t: nat): State
    requires t < |s.tasks|
  {
    var k := s.tasks[t].(state := TaskState.Scheduling, list := List(s.next, []), zone := z);
    s.(tasks := s.tasks[t := k], stack := s.stack + [Schedules(t, s.next)], next := s.next + 1)
  }

  /** A delegate that watches tasks adds itself to the task's array. */
  function Enlist(s: State, t: nat, d: nat): State
    requires t < |s.tasks| && s.tasks[t].list.List?
  {
    var k := s.tasks[t];
    s.(tasks := s.tasks[t := k.(list := k.list.(items := k.list.items + [d]))])
  }

  function SetState(s: State, t: nat, to: TaskState): State
    requires t < |s.tasks|
  {
    var k := s.tasks[t].(state := to);
    s.(tasks := s.tasks[t := if to.NotScheduled? then k.(list := Null) else k])
  }

  /** `scheduleTask` returns: the task is counted only if its array is still the one this call made. */
  ghost function EndSchedule(s: State): State
    requires s.stack != [] && Top(s).Schedules? && Top(s).task < |s.tasks| && ItemsKnown(s, Top(s).task)
  {
    var t, k := Top(s).task, s.tasks[Top(s).task];
    var s1 := if k.list.List? && k.list.id == Top(s).id then CountUp(s, t) else s;
    Pop(if k.state.Scheduling? then SetState(s1, t, TaskState.Scheduled) else s1)
  }

  function FailSchedule(s: State): State
    requires s.stack != [] && Top(s).Schedules? && Top(s).task < |s.tasks|
  {
    var t := Top(s).task;
    Pop(if s.tasks[t].state in {Scheduling, NotScheduled} then SetState(s, t, Unknown) else s)
  }

  function BeginRun(s: State, z: nat, t: nat): State
    requires t < |s.tasks|
  {
    var k := s.tasks[t];
    s.(tasks := s.tasks[t := k.(state := TaskState.Running, runCount := k.runCount + 1)],
       stack := s.stack + [Runs(t, !k.state.Running?, s.current, z)],
       zones := s.zones + [z],
       current := t)
  }

  /** A run is about to end. */
  ghost predicate Ending(s: State) {
    s.stack != [] && s.zones != [] && Top(s).Runs? && Top(s).task < |s.tasks| &&
    (s.tasks[Top(s).task].state !in {TaskState.NotScheduled, Unknown} && !s.tasks[Top(s).task].Repeats() ==>
      s.tasks[Top(s).task].list.List? && ItemsKnown(s, Top(s).task))
  }

  /** The `finally` block of `runTask`. When a transition in it throws, the rest is skipped, and the
      zone frame and the current task stay as they are. */
  ghost function EndRun(s: State): State
    requires Ending(s)
  {
    var t, k := Top(s).task, s.tasks[Top(s).task];
    if k.state in {NotScheduled, Unknown} then Restore(s)
    else if k.Repeats() then
      if !Top(s).moved then Restore(s)
      else if k.state.Running? then Restore(SetState(s, t, TaskState.Scheduled))
      else Pop(s)
    else
      var s2 := CountDown(s.(tasks := s.tasks[t := k.(runCount := 0)]), t);
      if !Top(s).moved then Restore(s2)
      else if k.state.Running? then Restore(SetState(s2, t, TaskState.NotScheduled))
      else Pop(s2)
  }

  /** The end of that block: the zone frame and the current task of before. */
  function Restore(s: State): State
    requires s.stack != [] && s.zones != [] && Top(s).Runs?
  {
    Pop(s).(zones := s.zones[..|s.zones| - 1], current := Top(s).previous)
  }

  function BeginCancel(s: State, t: nat): State
    requires t < |s.tasks|
  {
    SetState(s, t, TaskState.Canceling).(stack := s.stack + [Cancels(t)])
  }

  ghost function EndCancel(s: State): State
    requires s.stack != [] && Top(s).Cancels? && Top(s).task < |s.tasks|
    requires s.tasks[Top(s).task].list.List? && ItemsKnown(s, Top(s).task)
  {
    var t := Top(s).task;
    var s1 := SetState(CountDown(s, t), t, TaskState.NotScheduled);
    Pop(s1.(tasks := s1.tasks[t := s1.tasks[t].(runCount := 0)]))
  }

  function FailCancel(s: State): State
    requires s.stack != [] && Top(s).Cancels? && Top(s).task < |s.tasks|
  {
    Pop(SetState(s, Top(s).task, Unknown))
  }

  // ---------------------------------------------------------------- every step keeps the invariant

  /** A change of one task that leaves its contribution alone. */
  lemma SameShare(tasks: seq<Task>, tallies: seq<Tally>, t: nat, k: Task)
    requires t < |tasks| && Conserved(tasks, tallies)
    requires (!k.counted && !tasks[t].counted) || (k.counted == tasks[t].counted && k.ty == tasks[t].ty && k.list == tasks[t].list)
    ensures Conserved(tasks[t := k], tallies)
  {
    forall d, ty | 0 <= d < |tallies|
      ensures tallies[d].Of(ty) == Owed(tasks[t := k], d, ty)
    {
      OwedUpdate(tasks, t, k, d, ty);
    }
  }

  /** Counting a task up or down moves every delegate's count by its share. */
  lemma CountedShare(tasks: seq<Task>, tallies: seq<Tally>, t: nat, k: Task, items: seq<nat>, n: int)
    requires t < |tasks| && Conserved(tasks, tallies)
    requires forall j :: 0 <= j < |items| ==> items[j] < |tallies|
    requires tasks[t].ty == k.ty
    requires if n == 1 then !tasks[t].counted && k.counted && k.list.List? && k.list.items == items
             else n == -1 && tasks[t].counted && !k.counted && tasks[t].list.List? && tasks[t].list.items == items
    ensures Conserved(tasks[t := k], Bump(tallies, items, k.ty, n))
  {
    var r := Bump(tallies, items, k.ty, n);
    forall d, ty | 0 <= d < |r|
      ensures r[d].Of(ty) == Owed(tasks[t := k], d, ty)
    {
      OwedUpdate(tasks, t, k, d, ty);
      BumpAdds(tallies, items, k.ty, n, d, ty);
    }
  }

  /** A task and the frames above position `n` other than those of `t` do not see a change of `t`. */
  ghost predicate Elsewhere(s: State, r: State, t: nat) {
    |r.tasks| == |s.tasks| && |r.tallies| == |s.tallies| && r.next >= s.next &&
    forall u :: 0 <= u < |s.tasks| && u != t ==> r.tasks[u] == s.tasks[u]
  }

  lemma OthersOkPush(s: State, r: State, t: nat, f: Frame, u: nat)
    requires Elsewhere(s, r, t) && r.stack == s.stack + [f] && f.task == t && u < |s.tasks| && u != t && TaskOk(s, u)
    ensures TaskOk(r, u)
  {
    var k := s.tasks[u];
    if k.state.Scheduling? {
      var i :| 0 <= i < |s.stack| && s.stack[i] == Schedules(u, k.list.id) &&
               forall j :: i < j < |s.stack| ==> !IsScheduleOf(s.stack[j], u);
      assert r.stack[i] == Schedules(u, k.list.id);
      assert forall j :: i < j < |r.stack| ==> !IsScheduleOf(r.stack[j], u);
    } else if k.state.Canceling? {
      var i :| 0 <= i < |s.stack| && s.stack[i] == Cancels(u);
      assert r.stack[i] == Cancels(u);
    } else if k.state.Running? {
      var i :| 0 <= i < |s.stack| && MovedBy(s.stack[i], u);
      assert r.stack[i] == s.stack[i];
    }
  }

  lemma OthersOkSame(s: State, r: State, t: nat, u: nat)
    requires Elsewhere(s, r, t) && r.stack == s.stack && u < |s.tasks| && u != t && TaskOk(s, u)
    ensures TaskOk(r, u)
  {
  }

  lemma OthersOkPop(s: State, r: State, t: nat, u: nat)
    requires s.stack != [] && Elsewhere(s, r, t) && r.stack == s.stack[..|s.stack| - 1] && Top(s).task == t
    requires u < |s.tasks| && u != t && TaskOk(s, u)
    ensures TaskOk(r, u)
  {
    var k := s.tasks[u];
    if k.state.Scheduling? {
      var i :| 0 <= i < |s.stack| && s.stack[i] == Schedules(u, k.list.id) &&
               forall j :: i < j < |s.stack| ==> !IsScheduleOf(s.stack[j], u);
      assert i < |r.stack| && r.stack[i] == Schedules(u, k.list.id);
    } else if k.state.Canceling? {
      var i :| 0 <= i < |s.stack| && s.stack[i] == Cancels(u);
      assert i < |r.stack| && r.stack[i] == Cancels(u);
    } else if k.state.Running? {
      var i :| 0 <= i < |s.stack| && MovedBy(s.stack[i], u);
      assert i < |r.stack| && r.stack[i] == s.stack[i];
    }
  }

  lemma BeginScheduleKeeps(s: State, z: nat, t: nat)
    requires Inv(s) && t < |s.tasks| && s.tasks[t].state.NotScheduled?
    ensures Inv(BeginSchedule(s, z, t))
  {
    var r := BeginSchedule(s, z, t);
    assert TaskOk(s, t);
    SameShare(s.tasks, s.tallies, t, r.tasks[t]);
    assert r.stack[..|s.stack|] == s.stack;
    forall u | 0 <= u < |r.tasks|
      ensures TaskOk(r, u)
    {
      if u != t {
        OthersOkPush(s, r, t, Schedules(t, s.next), u);
      } else {
        assert r.stack[|s.stack|] == Schedules(t, s.next);
      }
    }
    forall i | 0 <= i < |r.stack|
      ensures FrameOk(r, i)
    {
      if i < |s.stack| {
        assert FrameOk(s, i);
        assert r.stack[..i] == s.stack[..i];
        forall j | 0 <= j < i && s.stack[i].Runs?
          ensures Superseded(r, s.stack[i].task, r.stack[j])
        {
          assert FrameOk(s, j) && Superseded(s, s.stack[i].task, s.stack[j]);
        }
      }
    }
  }

  /** A delegate may enlist exactly as long as the task is not counted. */
  lemma EnlistKeeps(s: State, t: nat, d: nat)
    requires Inv(s) && t < |s.tasks| && s.tasks[t].list.List? && d < |s.tallies|
    ensures Inv(Enlist(s, t, d)) <==> !s.tasks[t].counted
  {
    var r := Enlist(s, t, d);
    assert TaskOk(s, t);
    if s.tasks[t].counted {
      var ty := s.tasks[t].ty;
      OwedUpdate(s.tasks, t, r.tasks[t], d, ty);
      assert r.tasks[t].list.items[..|s.tasks[t].list.items|] == s.tasks[t].list.items;
      assert r.tallies[d].Of(ty) != Owed(r.tasks, d, ty);
    } else {
      SameShare(s.tasks, s.tallies, t, r.tasks[t]);
      forall u | 0 <= u < |r.tasks|
        ensures TaskOk(r, u)
      {
        if u != t {
          OthersOkSame(s, r, t, u);
        }
      }
      forall i | 0 <= i < |r.stack|
        ensures FrameOk(r, i)
      {
        assert FrameOk(s, i);
        if s.stack[i].Runs? {
          assert forall j :: 0 <= j < i && Superseded(s, s.stack[i].task, s.stack[j]) ==>
                               Superseded(r, s.stack[i].task, r.stack[j]);
        }
      }
    }
  }

  lemma CancelRequestKeeps(s: State, t: nat)
    requires Inv(s) && t < |s.tasks| && s.tasks[t].state.Scheduling?
    ensures Inv(SetState(s, t, TaskState.NotScheduled))
  {
    var r := SetState(s, t, TaskState.NotScheduled);
    assert TaskOk(s, t);
    SameShare(s.tasks, s.tallies, t, r.tasks[t]);
    forall u | 0 <= u < |r.tasks|
      ensures TaskOk(r, u)
    {
      if u != t {
        OthersOkSame(s, r, t, u);
      }
    }
    forall i | 0 <= i < |r.stack|
      ensures FrameOk(r, i)
    {
      assert FrameOk(s, i);
    }
  }

  /** When `scheduleTask` returns, a task still being scheduled is the one this call started. */
  lemma TopSchedule(s: State)
    requires Inv(s) && s.stack != [] && Top(s).Schedules?
    ensures Top(s).task < |s.tasks|
    ensures var t, k := Top(s).task, s.tasks[Top(s).task];
            ItemsKnown(s, t) && (k.state.Scheduling? <==> k.list.List? && k.list.id == Top(s).id)
  {
    var n := |s.stack| - 1;
    assert FrameOk(s, n);
    var t := Top(s).task;
    assert TaskOk(s, t);
    assert IsScheduleOf(s.stack[n], t);
  }

  /** A pop that changes at most the task the popped frame is about. */
  lemma PopKeeps(s: State, r: State)
    requires Inv(s) && s.stack != [] && Elsewhere(s, r, Top(s).task) && r.stack == s.stack[..|s.stack| - 1]
    requires Conserved(r.tasks, r.tallies)
    requires Top(s).task < |s.tasks| && TaskOk(r, Top(s).task)
    requires r.zones == ZonesOf(r.stack) && r.current == CurrentOf(r.stack)
    requires forall i :: 0 <= i < |r.stack| && FrameOk(s, i) ==> FrameOk(r, i)
    ensures Inv(r)
  {
    forall u | 0 <= u < |r.tasks|
      ensures TaskOk(r, u)
    {
      if u != Top(s).task {
        OthersOkPop(s, r, Top(s).task, u);
      }
    }
    assert forall i :: 0 <= i < |r.stack| ==> FrameOk(s, i);
  }

  lemma EndScheduleKeeps(s: State)
    requires Inv(s) && s.stack != [] && Top(s).Schedules? && Top(s).task < |s.tasks| && ItemsKnown(s, Top(s).task)
    ensures Inv(EndSchedule(s))
  {
    TopSchedule(s);
    var n, t, r := |s.stack| - 1, Top(s).task, EndSchedule(s);
    var k := s.tasks[t];
    assert TaskOk(s, t) && FrameOk(s, n);
    if k.state.Scheduling? {
      CountedShare(s.tasks, s.tallies, t, r.tasks[t], k.list.items, 1);
    }
    forall i | 0 <= i < n
      ensures FrameOk(r, i)
    {
      assert FrameOk(s, i) && s.stack[n].Schedules?;
      assert r.stack[..i] == s.stack[..i];
    }
    assert r.tasks == s.tasks[t := r.tasks[t]];
    PopKeeps(s, r);
  }

  lemma FailScheduleKeeps(s: State)
    requires Inv(s) && s.stack != [] && Top(s).Schedules? && Top(s).task < |s.tasks|
    ensures Inv(FailSchedule(s))
  {
    TopSchedule(s);
    var n, t, r := |s.stack| - 1, Top(s).task, FailSchedule(s);
    assert TaskOk(s, t) && FrameOk(s, n);
    SameShare(s.tasks, s.tallies, t, r.tasks[t]);
    forall i | 0 <= i < n
      ensures FrameOk(r, i)
    {
      assert FrameOk(s, i) && s.stack[n].Schedules?;
      assert r.stack[..i] == s.stack[..i];
    }
    assert r.tasks == s.tasks[t := r.tasks[t]];
    PopKeeps(s, r);
  }

  lemma BeginRunKeeps(s: State, z: nat, t: nat)
    requires Inv(s) && t < |s.tasks|
    requires s.tasks[t].state.Scheduled? || s.tasks[t].state.Running?
    ensures Inv(BeginRun(s, z, t))
  {
    var r := BeginRun(s, z, t);
    assert TaskOk(s, t);
    SameShare(s.tasks, s.tallies, t, r.tasks[t]);
    assert r.stack[..|s.stack|] == s.stack;
    forall u | 0 <= u < |r.tasks|
      ensures TaskOk(r, u)
    {
      if u != t {
        OthersOkPush(s, r, t, Runs(t, !s.tasks[t].state.Running?, s.current, z), u);
      } else if s.tasks[t].state.Running? {
        var i :| 0 <= i < |s.stack| && MovedBy(s.stack[i], t);
        assert MovedBy(r.stack[i], t);
      } else {
        assert MovedBy(r.stack[|s.stack|], t);
      }
    }
    forall i | 0 <= i < |r.stack|
      ensures FrameOk(r, i)
    {
      assert r.stack[..i] == s.stack[..i];
      if i < |s.stack| {
        assert FrameOk(s, i);
        assert s.stack[i].Runs? ==>
          forall j :: 0 <= j < i && Superseded(s, s.stack[i].task, s.stack[j]) ==> Superseded(r, s.stack[i].task, r.stack[j]);
      } else {
        forall j | 0 <= j < i
          ensures Superseded(r, t, r.stack[j])
        {
          assert FrameOk(s, j);
        }
      }
    }
  }

  /** When a run ends its task is running, was cancelled meanwhile, or is scheduled again; nothing else is possible. */
  lemma TopRun(s: State)
    requires Inv(s) && s.stack != [] && Top(s).Runs?
    ensures Top(s).task < |s.tasks|
    ensures var t, k := Top(s).task, s.tasks[Top(s).task];
            ItemsKnown(s, t) && k.state in {TaskState.Running, TaskState.Scheduled, TaskState.NotScheduled, Unknown} &&
            (k.state in {TaskState.Running, TaskState.Scheduled} ==> k.counted && k.list.List?)
    ensures s.zones == ZonesOf(s.stack[..|s.stack| - 1]) + [Top(s).zone]
    ensures Top(s).previous == CurrentOf(s.stack[..|s.stack| - 1])
    ensures Ending(s)
  {
    var n := |s.stack| - 1;
    assert FrameOk(s, n);
    var t := Top(s).task;
    assert TaskOk(s, t);
    if s.tasks[t].state.Canceling? {
      var i :| 0 <= i < |s.stack| && s.stack[i] == Cancels(t);
      assert FrameOk(s, i) && IsRunOf(s.stack[n], t);
    }
  }

  /** Whether the run that ends finds its task as it left it, cancelled, or, having merely joined the run of a
      repeating task, scheduled again. */
  predicate EndsWell(s: State)
    requires s.stack != [] && Top(s).Runs? && Top(s).task < |s.tasks|
  {
    var k := s.tasks[Top(s).task];
    match k.state
    case NotScheduled => true
    case Unknown => true
    case Running => k.Repeats() || Top(s).moved
    case Scheduled => k.Repeats() && !Top(s).moved
    case _ => false
  }

  /** Leaving a run with its task changed to `k`, and the counts with it, as far as the task itself allows it. */
  lemma RestoreKeeps(s: State, k: Task, tallies: seq<Tally>)
    requires Inv(s) && s.stack != [] && s.zones != [] && Top(s).Runs? && Top(s).task < |s.tasks|
    requires k.list in {Null, s.tasks[Top(s).task].list} && |tallies| == |s.tallies|
    requires Conserved(s.tasks[Top(s).task := k], tallies)
    requires TaskOk(Restore(s.(tasks := s.tasks[Top(s).task := k], tallies := tallies)), Top(s).task)
    ensures Inv(Restore(s.(tasks := s.tasks[Top(s).task := k], tallies := tallies)))
  {
    TopRun(s);
    var n, t, r := |s.stack| - 1, Top(s).task, Restore(s.(tasks := s.tasks[Top(s).task := k], tallies := tallies));
    assert ZonesOf(s.stack[..n]) == s.zones[..|s.zones| - 1];
    forall i | 0 <= i < n
      ensures FrameOk(r, i)
    {
      LowerFrame(s, r, i);
    }
    PopKeeps(s, r);
  }

  lemma LowerFrame(s: State, r: State, i: nat)
    requires Inv(s) && s.stack != [] && Top(s).Runs? && Top(s).task < |s.tasks| && i < |s.stack| - 1
    requires r.stack == s.stack[..|s.stack| - 1] && Elsewhere(s, r, Top(s).task)
    requires r.tasks[Top(s).task].list in {Null, s.tasks[Top(s).task].list}
    ensures FrameOk(r, i)
  {
    var n, t := |s.stack| - 1, Top(s).task;
    assert FrameOk(s, i) && FrameOk(s, n) && IsRunOf(s.stack[n], t);
    assert r.stack[..i] == s.stack[..i];
    match s.stack[i] {
      case Schedules(u, id) =>
        assert u == t ==> Superseded(s, t, s.stack[i]);
      case Runs(u, _, _, _) =>
        assert forall j :: 0 <= j < i ==> Superseded(s, u, s.stack[j]) && Superseded(r, u, r.stack[j]);
      case Cancels(u) =>
        assert u != t;
    }
  }

  /** The end of a run keeps the invariant exactly when the run ends well. */
  lemma EndRunKeeps(s: State)
    requires Inv(s) && Ending(s)
    ensures Inv(EndRun(s)) <==> EndsWell(s)
  {
    if !EndsWell(s) {
      EndRunBreaks(s);
    } else if s.tasks[Top(s).task].state.Running? && Top(s).moved {
      if s.tasks[Top(s).task].Repeats() {
        RepeatingEndKeeps(s);
      } else {
        OneShotEndKeeps(s);
      }
    } else {
      JoinedEndKeeps(s);
    }
  }

  /** A run that did not move its task, or whose task is gone, leaves it as it is. */
  lemma JoinedEndKeeps(s: State)
    requires Inv(s) && s.stack != [] && Top(s).Runs? && s.zones != [] && Top(s).task < |s.tasks|
    requires EndsWell(s) && !(s.tasks[Top(s).task].state.Running? && Top(s).moved)
    ensures Inv(Restore(s))
  {
    var n, t, r := |s.stack| - 1, Top(s).task, Restore(s);
    assert TaskOk(s, t);
    if s.tasks[t].state.Running? {
      var i :| 0 <= i < |s.stack| && MovedBy(s.stack[i], t);
      assert i < n && MovedBy(r.stack[i], t);
    }
    assert s.tasks[t := s.tasks[t]] == s.tasks;
    RestoreKeeps(s, s.tasks[t], s.tallies);
  }

  lemma RepeatingEndKeeps(s: State)
    requires Inv(s) && s.stack != [] && Top(s).Runs? && s.zones != [] && Top(s).task < |s.tasks|
    requires s.tasks[Top(s).task].state.Running?
    ensures Inv(Restore(SetState(s, Top(s).task, TaskState.Scheduled)))
  {
    var t := Top(s).task;
    var k := s.tasks[t].(state := TaskState.Scheduled);
    assert TaskOk(s, t);
    SameShare(s.tasks, s.tallies, t, k);
    RestoreKeeps(s, k, s.tallies);
  }

  lemma OneShotEndKeeps(s: State)
    requires Inv(s) && s.stack != [] && Top(s).Runs? && s.zones != [] && Top(s).task < |s.tasks|
    requires s.tasks[Top(s).task].state.Running? && !s.tasks[Top(s).task].Repeats() && Top(s).moved
    requires Ending(s)
    ensures Inv(EndRun(s))
  {
    var t := Top(s).task;
    var k := s.tasks[t].(runCount := 0, counted := false, list := Null, state := TaskState.NotScheduled);
    var tallies := Bump(s.tallies, s.tasks[t].list.items, s.tasks[t].ty, -1);
    assert TaskOk(s, t);
    CountedShare(s.tasks, s.tallies, t, k, s.tasks[t].list.items, -1);
    RestoreKeeps(s, k, tallies);
    assert EndRun(s) == Restore(s.(tasks := s.tasks[t := k], tallies := tallies));
  }

  /** A task that is scheduled again loses the zone frame of the run that moved it; a one-shot task loses its array
      and its count as well, and so it does when a run that joined another one ends first. */
  lemma EndRunBreaks(s: State)
    requires Inv(s) && Ending(s)
    requires !EndsWell(s)
    ensures !Inv(EndRun(s))
    ensures var t := Top(s).task;
            if s.tasks[t].Repeats() then EndRun(s) == Pop(s)
            else EndRun(s).tasks[t].state == s.tasks[t].state && EndRun(s).tasks[t].list == Null && !EndRun(s).tasks[t].counted
  {
    TopRun(s);
    var t, r := Top(s).task, EndRun(s);
    if s.tasks[t].Repeats() {
      assert |r.zones| == |ZonesOf(r.stack)| + 1;
    } else {
      assert !TaskOk(r, t);
    }
  }

  lemma BeginCancelKeeps(s: State, t: nat)
    requires Inv(s) && t < |s.tasks| && s.tasks[t].state in {TaskState.Scheduled, TaskState.Running}
    ensures Inv(BeginCancel(s, t))
  {
    var r := BeginCancel(s, t);
    assert TaskOk(s, t);
    SameShare(s.tasks, s.tallies, t, r.tasks[t]);
    assert r.stack[..|s.stack|] == s.stack && r.stack[|s.stack|] == Cancels(t);
    forall u | 0 <= u < |r.tasks|
      ensures TaskOk(r, u)
    {
      if u != t {
        OthersOkPush(s, r, t, Cancels(t), u);
      }
    }
    forall i | 0 <= i < |r.stack|
      ensures FrameOk(r, i)
    {
      if i < |s.stack| {
        assert FrameOk(s, i);
        assert r.stack[..i] == s.stack[..i];
      }
    }
  }

  lemma TopCancel(s: State)
    requires Inv(s) && s.stack != [] && Top(s).Cancels?
    ensures Top(s).task < |s.tasks|
    ensures var t, k := Top(s).task, s.tasks[Top(s).task];
            ItemsKnown(s, t) && k.state.Canceling? && k.counted && k.list.List?
    ensures forall i :: 0 <= i < |s.stack| - 1 ==> s.stack[i] != Cancels(Top(s).task)
  {
    assert FrameOk(s, |s.stack| - 1);
    assert TaskOk(s, Top(s).task);
    forall i | 0 <= i < |s.stack| - 1
      ensures s.stack[i] != Cancels(Top(s).task)
    {
      assert FrameOk(s, i);
    }
  }

  lemma EndCancelKeeps(s: State)
    requires Inv(s) && s.stack != [] && Top(s).Cancels? && Top(s).task < |s.tasks|
    requires s.tasks[Top(s).task].list.List? && ItemsKnown(s, Top(s).task)
    ensures Inv(EndCancel(s))
  {
    TopCancel(s);
    var n, t, r := |s.stack| - 1, Top(s).task, EndCancel(s);
    var k := s.tasks[t];
    assert TaskOk(s, t) && FrameOk(s, n);
    CountedShare(s.tasks, s.tallies, t, r.tasks[t], k.list.items, -1);
    forall i | 0 <= i < n
      ensures FrameOk(r, i)
    {
      assert FrameOk(s, i);
      assert r.stack[..i] == s.stack[..i];
    }
    assert r.tasks == s.tasks[t := r.tasks[t]];
    PopKeeps(s, r);
  }

  lemma FailCancelKeeps(s: State)
    requires Inv(s) && s.stack != [] && Top(s).Cancels? && Top(s).task < |s.tasks|
    ensures Inv(FailCancel(s))
  {
    TopCancel(s);
    var n, t, r := |s.stack| - 1, Top(s).task, FailCancel(s);
    assert TaskOk(s, t) && FrameOk(s, n);
    SameShare(s.tasks, s.tallies, t, r.tasks[t]);
    forall i | 0 <= i < n
      ensures FrameOk(r, i)
    {
      assert FrameOk(s, i);
      assert r.stack[..i] == s.stack[..i];
    }
    assert r.tasks == s.tasks[t := r.tasks[t]];
    PopKeeps(s, r);
  }

  // ---------------------------------------------------------------- whole runs

  datatype Step =
    | ScheduleBegins(zone: nat, task: nat)
    | DelegateEnlists(task: nat, delegate: nat)
    | ScheduleReturns
    | ScheduleThrows
    | RequestCancelled(task: nat)
    | RunBegins(zone: nat, task: nat)
    | RunEnds
    | CancelBegins(zone: nat, task: nat)
    | CancelReturns
    | CancelThrows

  /** The step passes the checks in the code, and user code has kept its discipline: no request is forwarded for a
      task that is already counted, and every run ends well. `EnlistKeeps` and `EndRunKeeps` show that the invariant
      needs just that. */
  ghost predicate Legal(s: State, tree: seq<int>, st: Step)
    requires forall k :: 0 <= k < |tree| ==> -1 <= tree[k] < k
  {
    match st
    case ScheduleBegins(z, t) =>
      t < |s.tasks| && z < |tree| && s.tasks[t].state.NotScheduled? &&
      (s.tasks[t].zone in {-1, z as int} || !Under(tree, z, s.tasks[t].zone))
    case DelegateEnlists(t, d) =>
      t < |s.tasks| && d < |s.tallies| && s.tasks[t].list.List? && !s.tasks[t].counted
    case ScheduleReturns => s.stack != [] && Top(s).Schedules?
    case ScheduleThrows => s.stack != [] && Top(s).Schedules?
    case RequestCancelled(t) => t < |s.tasks| && s.tasks[t].state.Scheduling?
    case RunBegins(z, t) =>
      t < |s.tasks| && s.tasks[t].zone == z && s.tasks[t].state in {TaskState.Scheduled, TaskState.Running}
    case RunEnds => s.stack != [] && Top(s).Runs? && Top(s).task < |s.tasks| && EndsWell(s)
    case CancelBegins(z, t) =>
      t < |s.tasks| && s.tasks[t].zone == z && s.tasks[t].state in {TaskState.Scheduled, TaskState.Running}
    case CancelReturns => s.stack != [] && Top(s).Cancels?
    case CancelThrows => s.stack != [] && Top(s).Cancels?
  }

  /** What a legal step leads to. */
  ghost function Apply(s: State, tree: seq<int>, st: Step): (r: State)
    requires forall k :: 0 <= k < |tree| ==> -1 <= tree[k] < k
    requires Inv(s) && Legal(s, tree, st)
    ensures Inv(r)
  {
    match st
    case ScheduleBegins(z, t) => BeginScheduleKeeps(s, z, t); BeginSchedule(s, z, t)
    case DelegateEnlists(t, d) => EnlistKeeps(s, t, d); Enlist(s, t, d)
    case ScheduleReturns => TopSchedule(s); EndScheduleKeeps(s); EndSchedule(s)
    case ScheduleThrows => TopSchedule(s); FailScheduleKeeps(s); FailSchedule(s)
    case RequestCancelled(t) => CancelRequestKeeps(s, t); SetState(s, t, TaskState.NotScheduled)
    case RunBegins(z, t) => BeginRunKeeps(s, z, t); BeginRun(s, z, t)
    case RunEnds => TopRun(s); EndRunKeeps(s); EndRun(s)
    case CancelBegins(z, t) => BeginCancelKeeps(s, t); BeginCancel(s, t)
    case CancelReturns => TopCancel(s); EndCancelKeeps(s); EndCancel(s)
    case CancelThrows => TopCancel(s); FailCancelKeeps(s); FailCancel(s)
  }

  /** `r` is reached from `s` by legal steps. */
  ghost predicate Reaches(s: State, tree: seq<int>, steps: seq<Step>, r: State)
    requires forall k :: 0 <= k < |tree| ==> -1 <= tree[k] < k
    requires Inv(s)
    decreases |steps|
  {
    if steps == [] then r == s
    else Legal(s, tree, steps[0]) && Reaches(Apply(s, tree, steps[0]), tree, steps[1..], r)
  }

  /** Nothing scheduled yet, nothing counted. */
  ghost predicate Initial(s: State) {
    (forall t :: 0 <= t < |s.tasks| ==>
      s.tasks[t].state.NotScheduled? && s.tasks[t].list == Null && !s.tasks[t].counted) &&
    (forall d :: 0 <= d < |s.tallies| ==> s.tallies[d] == Tally(0, 0, 0)) &&
    s.stack == [] && s.zones == [0] && s.current == -1
  }

  lemma {:induction false} NothingOwed(tasks: seq<Task>, d: nat, ty: TaskType)
    requires forall t :: 0 <= t < |tasks| ==> !tasks[t].counted
    ensures Owed(tasks, d, ty) == 0
  {
    if tasks != [] {
      NothingOwed(tasks[..|tasks| - 1], d, ty);
    }
  }

  lemma InitialInv(s: State)
    requires Initial(s)
    ensures Inv(s)
  {
    forall d, ty | 0 <= d < |s.tallies|
      ensures s.tallies[d].Of(ty) == Owed(s.tasks, d, ty)
    {
      NothingOwed(s.tasks, d, ty);
    }
  }

  /** Task-count conservation over whole runs: at every point of every run each delegate's count is
      the number of counted tasks that hold it, with multiplicity, and so is never negative. When no
      call is in progress, the root zone is current again, no task is, and a task is counted exactly
      when it is scheduled, except for tasks whose cancellation threw. */
  lemma {:induction false} CountsConserved(s: State, tree: seq<int>, steps: seq<Step>, r: State)
    requires forall k :: 0 <= k < |tree| ==> -1 <= tree[k] < k
    requires Inv(s) && Reaches(s, tree, steps, r)
    ensures Inv(r)
    ensures forall d, ty :: 0 <= d < |r.tallies| ==> r.tallies[d].Of(ty) == Owed(r.tasks, d, ty) >= 0
    ensures r.stack == [] ==>
      r.zones == [0] && r.current == -1 &&
      forall t :: 0 <= t < |r.tasks| ==>
        r.tasks[t].state in {TaskState.NotScheduled, TaskState.Scheduled, Unknown} &&
        (r.tasks[t].state != Unknown ==> (r.tasks[t].counted <==> r.tasks[t].state.Scheduled?))
    decreases |steps|
  {
    if steps != [] {
      CountsConserved(Apply(s, tree, steps[0]), tree, steps[1..], r);
    } else {
      forall t | 0 <= t < |r.tasks| && r.stack == []
        ensures r.tasks[t].state in {TaskState.NotScheduled, TaskState.Scheduled, Unknown}
        ensures r.tasks[t].state != Unknown ==> (r.tasks[t].counted <==> r.tasks[t].state.Scheduled?)
      {
        assert TaskOk(r, t);
      }
    }
  }

  // ---------------------------------------------------------------- moving a task, and breaking the discipline

  function EnlistAll(s: State, t: nat, ds: seq<nat>): (r: State)
    requires t < |s.tasks| && s.tasks[t].list.List?
    ensures r == s.(tasks := s.tasks[t := s.tasks[t].(list := s.tasks[t].list.(items := s.tasks[t].list.items + ds))])
    decreases |ds|
  {
    if ds == [] then
      assert s.tasks[t].list.items + [] == s.tasks[t].list.items;
      s
    else
      var s1 := Enlist(s, t, ds[0]);
      var r := EnlistAll(s1, t, ds[1..]);
      assert (s.tasks[t].list.items + [ds[0]]) + ds[1..] == s.tasks[t].list.items + ds;
      r
  }

  /** A hook of `scheduleTask` in zone `z1` cancels the request and schedules the task in zone `z2`,
      whose delegates `ds2` enlist: the state when the second call is about to return. */
  function Move(s: State, t: nat, z1: nat, ds1: seq<nat>, z2: nat, ds2: seq<nat>): (r: State)
    requires t < |s.tasks|
    ensures r == State(s.tasks[t := s.tasks[t].(state := TaskState.Scheduling, zone := z2, list := List(s.next + 1, ds2))],
                       s.tallies, s.stack + [Schedules(t, s.next), Schedules(t, s.next + 1)], s.zones, s.current, s.next + 2)
  {
    var s1 := EnlistAll(BeginSchedule(s, z1, t), t, ds1);
    var s2 := SetState(s1, t, TaskState.NotScheduled);
    assert s2.stack + [Schedules(t, s.next + 1)] == s.stack + [Schedules(t, s.next), Schedules(t, s.next + 1)];
    assert [] + ds2 == ds2;
    EnlistAll(BeginSchedule(s2, z2, t), t, ds2)
  }

  /** Whether a schedule call for `t` is the innermost open call, ready to return. */
  ghost predicate Returning(s: State, t: nat) {
    t < |s.tasks| && s.stack != [] && Top(s).Schedules? && Top(s).task == t && ItemsKnown(s, t)
  }

  /** Scheduled in a zone and counted, on one array. */
  function ScheduledIn(k: Task, zone: nat, list: DelegateList): Task {
    k.(state := TaskState.Scheduled, zone := zone, list := list, counted := true)
  }

  /** Once both calls have returned, first the inner one (`r1`), then the outer one (`r`), the task is
      scheduled in the second zone and counted once, on the delegates of the second call alone. */
  lemma MovedTask(s: State, t: nat, z1: nat, ds1: seq<nat>, z2: nat, ds2: seq<nat>) returns (m: State, r1: State, r: State)
    requires t < |s.tasks| && s.tasks[t].state.NotScheduled?
    requires forall j :: 0 <= j < |ds2| ==> ds2[j] < |s.tallies|
    ensures m == Move(s, t, z1, ds1, z2, ds2)
    ensures Returning(m, t) && r1 == EndSchedule(m)
    ensures Returning(r1, t) && r == EndSchedule(r1)
    ensures r.stack == s.stack && r.zones == s.zones && r.current == s.current
    ensures r.tallies == Bump(s.tallies, ds2, s.tasks[t].ty, 1)
    ensures r.tasks == s.tasks[t := ScheduledIn(s.tasks[t], z2, List(s.next + 1, ds2))]
  {
    m := Move(s, t, z1, ds1, z2, ds2);
    assert m.stack == (s.stack + [Schedules(t, s.next)]) + [Schedules(t, s.next + 1)];
    EndScheduleMatching(m, s.stack + [Schedules(t, s.next)], t, s.next + 1, ds2);
    r1 := EndSchedule(m);
    EndScheduleStale(r1, s.stack, t, s.next);
    r := EndSchedule(r1);
  }

  lemma EndScheduleMatching(s: State, below: seq<Frame>, t: nat, id: nat, items: seq<nat>)
    requires s.stack == below + [Schedules(t, id)] && t < |s.tasks|
    requires s.tasks[t].list == List(id, items) && ItemsKnown(s, t) && s.tasks[t].state.Scheduling?
    ensures EndSchedule(s) ==
              s.(stack := below, tallies := Bump(s.tallies, items, s.tasks[t].ty, 1),
                 tasks := s.tasks[t := s.tasks[t].(counted := true, state := TaskState.Scheduled)])
  {
    assert s.stack[..|s.stack| - 1] == below;
  }

  lemma EndScheduleStale(s: State, below: seq<Frame>, t: nat, id: nat)
    requires s.stack == below + [Schedules(t, id)] && t < |s.tasks| && ItemsKnown(s, t)
    requires s.tasks[t].list.List? && s.tasks[t].list.id != id && !s.tasks[t].state.Scheduling?
    ensures EndSchedule(s) == s.(stack := below)
  {
    assert s.stack[..|s.stack| - 1] == below;
  }

  /** A single task, with the given calls open. */
  function Single(k: Task, tallies: seq<Tally>, stack: seq<Frame>, next: nat): State {
    State([k], tallies, stack, ZonesOf(stack), CurrentOf(stack), next)
  }

  /** The root zone and a zone below it, in which the task lives. */
  const TREE := [-1, 0]

  ghost predicate Leads(s: State, st: Step, r: State) {
    Inv(s) && Legal(s, TREE, st) && r == Apply(s, TREE, st)
  }

  /** A step in front of a run. */
  lemma LeadsOn(s: State, st: Step, m: State, rest: seq<Step>, r: State)
    requires Leads(s, st, m) && Reaches(m, TREE, rest, r)
    ensures Reaches(s, TREE, [st] + rest, r)
  {
    assert ([st] + rest)[1..] == rest;
  }

  lemma LeadsBegin(s: State)
    requires Inv(s) && |s.tasks| == 1 && s.tasks[0].state.NotScheduled? && s.tasks[0].zone in {-1, 1}
    ensures Leads(s, Step.ScheduleBegins(1, 0), BeginSchedule(s, 1, 0)) && Inv(BeginSchedule(s, 1, 0))
  {
    BeginScheduleKeeps(s, 1, 0);
  }

  lemma LeadsEnlist(s: State, d: nat)
    requires Inv(s) && |s.tasks| == 1 && d < |s.tallies| && s.tasks[0].list.List? && !s.tasks[0].counted
    ensures Leads(s, DelegateEnlists(0, d), Enlist(s, 0, d)) && Inv(Enlist(s, 0, d))
  {
    EnlistKeeps(s, 0, d);
  }

  lemma LeadsReturn(s: State)
    requires Inv(s) && s.stack != [] && Top(s).Schedules? && Top(s).task < |s.tasks| && ItemsKnown(s, Top(s).task)
    ensures Leads(s, Step.ScheduleReturns, EndSchedule(s)) && Inv(EndSchedule(s))
  {
    EndScheduleKeeps(s);
  }

  lemma LeadsRun(s: State)
    requires Inv(s) && |s.tasks| == 1 && s.tasks[0].state.Scheduled? && s.tasks[0].zone == 1
    ensures Leads(s, Step.RunBegins(1, 0), BeginRun(s, 1, 0)) && Inv(BeginRun(s, 1, 0))
  {
    BeginRunKeeps(s, 1, 0);
  }

  lemma LeadsCancel(s: State)
    requires Inv(s) && |s.tasks| == 1 && s.tasks[0].state.Running? && s.tasks[0].zone == 1
    ensures Leads(s, Step.CancelBegins(1, 0), BeginCancel(s, 0)) && Inv(BeginCancel(s, 0))
  {
    BeginCancelKeeps(s, 0);
  }

  lemma LeadsCancelled(s: State)
    requires Inv(s) && s.stack != [] && Top(s).Cancels? && Top(s).task < |s.tasks|
    requires s.tasks[Top(s).task].list.List? && ItemsKnown(s, Top(s).task)
    ensures Leads(s, Step.CancelReturns, EndCancel(s)) && Inv(EndCancel(s))
  {
    EndCancelKeeps(s);
  }

  /** One delegate's count changed. */
  function Charged(tallies: seq<Tally>, d: nat, ty: TaskType, n: int): seq<Tally>
    requires d < |tallies|
  {
    tallies[d := tallies[d].Plus(ty, n)]
  }

  lemma BumpOne(tallies: seq<Tally>, d: nat, ty: TaskType, n: int)
    requires d < |tallies|
    ensures Bump(tallies, [d], ty, n) == Charged(tallies, d, ty, n)
  {
    assert [d][..0] == [];
  }

  /** The steps that schedule the task on the array of delegate `d`, and those that run it and cancel it meanwhile. */
  function ScheduleFirst(d: nat, rest: seq<Step>): seq<Step> {
    [Step.ScheduleBegins(1, 0)] + ([DelegateEnlists(0, d)] + ([Step.ScheduleReturns] + rest))
  }

  function CancelFirst(rest: seq<Step>): seq<Step> {
    [Step.RunBegins(1, 0)] + ([Step.CancelBegins(1, 0)] + ([Step.CancelReturns] + rest))
  }

  /** The single task when a delegate has enlisted and the call is about to return. */
  function Enlisted(k: Task, tallies: seq<Tally>, d: nat, stack: seq<Frame>, next: nat): State {
    Enlist(BeginSchedule(Single(k, tallies, stack, next), 1, 0), 0, d)
  }

  lemma EnlistedReturns(k: Task, tallies: seq<Tally>, d: nat, stack: seq<Frame>, next: nat)
    requires d < |tallies|
    ensures var s := Enlisted(k, tallies, d, stack, next);
            |s.tasks| == 1 && s.stack != [] && Top(s) == Schedules(0, next) && ItemsKnown(s, 0) &&
            EndSchedule(s) == Single(ScheduledIn(k, 1, List(next, [d])), Charged(tallies, d, k.ty, 1), stack, next + 1)
  {
    var s := Enlisted(k, tallies, d, stack, next);
    assert s.stack == stack + [Schedules(0, next)] && s.tasks[0].list == List(next, [d]);
    EndScheduleMatching(s, stack, 0, next, [d]);
    BumpOne(tallies, d, k.ty, 1);
  }

  /** The task is scheduled and counted. */
  lemma SingleScheduled(k: Task, tallies: seq<Tally>, d: nat, stack: seq<Frame>, next: nat)
    requires k.state.NotScheduled? && k.zone in {-1, 1} && !k.counted && d < |tallies| && Inv(Single(k, tallies, stack, next))
    ensures var s := Single(k, tallies, stack, next);
            Leads(s, Step.ScheduleBegins(1, 0), BeginSchedule(s, 1, 0)) &&
            Leads(BeginSchedule(s, 1, 0), DelegateEnlists(0, d), Enlisted(k, tallies, d, stack, next)) &&
            Leads(Enlisted(k, tallies, d, stack, next), Step.ScheduleReturns, EndSchedule(Enlisted(k, tallies, d, stack, next)))
  {
    var s := Single(k, tallies, stack, next);
    LeadsBegin(s);
    LeadsEnlist(BeginSchedule(s, 1, 0), d);
    EnlistedReturns(k, tallies, d, stack, next);
    LeadsReturn(Enlisted(k, tallies, d, stack, next));
  }

  /** Scheduling the task in front of a run. */
  lemma ScheduleOn(k: Task, tallies: seq<Tally>, d: nat, stack: seq<Frame>, next: nat, rest: seq<Step>, e: State)
    requires k.state.NotScheduled? && k.zone in {-1, 1} && !k.counted && d < |tallies| && Inv(Single(k, tallies, stack, next))
    ensures var r := Single(ScheduledIn(k, 1, List(next, [d])), Charged(tallies, d, k.ty, 1), stack, next + 1);
            Inv(r) && (Reaches(r, TREE, rest, e) ==> Reaches(Single(k, tallies, stack, next), TREE, ScheduleFirst(d, rest), e))
  {
    var s, m := Single(k, tallies, stack, next), Enlisted(k, tallies, d, stack, next);
    var r := Single(ScheduledIn(k, 1, List(next, [d])), Charged(tallies, d, k.ty, 1), stack, next + 1);
    SingleScheduled(k, tallies, d, stack, next);
    EnlistedReturns(k, tallies, d, stack, next);
    if Reaches(r, TREE, rest, e) {
      LeadsOn(m, Step.ScheduleReturns, r, rest, e);
      LeadsOn(BeginSchedule(s, 1, 0), DelegateEnlists(0, d), m, [Step.ScheduleReturns] + rest, e);
      LeadsOn(s, Step.ScheduleBegins(1, 0), BeginSchedule(s, 1, 0), [DelegateEnlists(0, d)] + ([Step.ScheduleReturns] + rest), e);
    }
  }

  /** The run of the only task, begun from the root zone. */
  const RUN := Runs(0, true, -1, 1)

  /** The single task when its run has begun. */
  function Started(k: Task, tallies: seq<Tally>, next: nat): State {
    BeginRun(Single(k, tallies, [], next), 1, 0)
  }

  lemma StartedCancels(k: Task, tallies: seq<Tally>, d: nat, next: nat)
    requires d < |tallies| && k.state.Scheduled? && k.list.List? && k.list.items == [d]
    ensures var s := BeginCancel(Started(k, tallies, next), 0);
            |s.tasks| == 1 && s.stack != [] && Top(s) == Cancels(0) && ItemsKnown(s, 0) && s.tasks[0].list == k.list &&
            EndCancel(s) == Single(k.(state := TaskState.NotScheduled, list := Null, counted := false, runCount := 0),
                                   Charged(tallies, d, k.ty, -1), [RUN], next)
  {
    var s := BeginCancel(Started(k, tallies, next), 0);
    assert [RUN][..0] == [];
    assert s.stack == [RUN, Cancels(0)] && s.stack[..1] == [RUN];
    BumpOne(tallies, d, k.ty, -1);
  }

  /** Running the task and cancelling it meanwhile, in front of a run. */
  lemma CancelOn(k: Task, tallies: seq<Tally>, d: nat, next: nat, rest: seq<Step>, e: State)
    requires k.state.Scheduled? && k.zone == 1 && k.list.List? && k.list.items == [d] && d < |tallies|
    requires Inv(Single(k, tallies, [], next))
    ensures var r := Single(k.(state := TaskState.NotScheduled, list := Null, counted := false, runCount := 0),
                            Charged(tallies, d, k.ty, -1), [RUN], next);
            Inv(r) && (Reaches(r, TREE, rest, e) ==> Reaches(Single(k, tallies, [], next), TREE, CancelFirst(rest), e))
  {
    var s, m := Single(k, tallies, [], next), Started(k, tallies, next);
    var r := Single(k.(state := TaskState.NotScheduled, list := Null, counted := false, runCount := 0),
                    Charged(tallies, d, k.ty, -1), [RUN], next);
    LeadsRun(s);
    LeadsCancel(m);
    StartedCancels(k, tallies, d, next);
    LeadsCancelled(BeginCancel(m, 0));
    if Reaches(r, TREE, rest, e) {
      LeadsOn(BeginCancel(m, 0), Step.CancelReturns, r, rest, e);
      LeadsOn(m, Step.CancelBegins(1, 0), BeginCancel(m, 0), [Step.CancelReturns] + rest, e);
      LeadsOn(s, Step.RunBegins(1, 0), m, [Step.CancelBegins(1, 0)] + ([Step.CancelReturns] + rest), e);
    }
  }

  /** A task is scheduled and runs; its callback cancels it and schedules it again. */
  function Rescheduling(d: nat): seq<Step> {
    ScheduleFirst(d, CancelFirst(ScheduleFirst(d, [])))
  }

  /** What this leads to. */
  function Rescheduled(k: Task, tallies: seq<Tally>, d: nat, next: nat): State
    requires d < |tallies|
  {
    Single(ScheduledIn(k.(list := Null, runCount := 0), 1, List(next + 1, [d])), Charged(tallies, d, k.ty, 1), [RUN], next + 2)
  }

  /** The states between: scheduled for the first time, and cancelled within its run. */
  function FirstScheduled(k: Task, tallies: seq<Tally>, d: nat, next: nat): State
    requires d < |tallies|
  {
    Single(ScheduledIn(k, 1, List(next, [d])), Charged(tallies, d, k.ty, 1), [], next + 1)
  }

  function CancelledWithin(k: Task, tallies: seq<Tally>, next: nat): State {
    Single(k.(zone := 1, list := Null, runCount := 0), tallies, [RUN], next + 1)
  }

  lemma FromFirstScheduled(k: Task, tallies: seq<Tally>, d: nat, next: nat, rest: seq<Step>, e: State)
    requires k.state.NotScheduled? && !k.counted && d < |tallies| && Inv(FirstScheduled(k, tallies, d, next))
    ensures var r := CancelledWithin(k, tallies, next);
            Inv(r) && (Reaches(r, TREE, rest, e) ==> Reaches(FirstScheduled(k, tallies, d, next), TREE, CancelFirst(rest), e))
  {
    CancelOn(ScheduledIn(k, 1, List(next, [d])), Charged(tallies, d, k.ty, 1), d, next + 1, rest, e);
    assert Charged(Charged(tallies, d, k.ty, 1), d, k.ty, -1) == tallies;
  }

  lemma FromCancelledWithin(k: Task, tallies: seq<Tally>, d: nat, next: nat)
    requires k.state.NotScheduled? && !k.counted && d < |tallies| && Inv(CancelledWithin(k, tallies, next))
    ensures var e := Rescheduled(k, tallies, d, next);
            Inv(e) && Reaches(CancelledWithin(k, tallies, next), TREE, ScheduleFirst(d, []), e)
  {
    ScheduleOn(k.(zone := 1, list := Null, runCount := 0), tallies, d, [RUN], next + 1, [], Rescheduled(k, tallies, d, next));
  }

  lemma ReachesRescheduled(k: Task, tallies: seq<Tally>, d: nat, next: nat)
    requires k.state.NotScheduled? && k.zone in {-1, 1} && !k.counted && d < |tallies| && Inv(Single(k, tallies, [], next))
    ensures Inv(Rescheduled(k, tallies, d, next))
    ensures Reaches(Single(k, tallies, [], next), TREE, Rescheduling(d), Rescheduled(k, tallies, d, next))
  {
    var e := Rescheduled(k, tallies, d, next);
    ScheduleOn(k, tallies, d, [], next, CancelFirst(ScheduleFirst(d, [])), e);
    FromFirstScheduled(k, tallies, d, next, ScheduleFirst(d, []), e);
    FromCancelledWithin(k, tallies, d, next);
  }

  /** How the run of the rescheduled task ends. */
  lemma RescheduledEnds(k: Task, tallies: seq<Tally>, d: nat, next: nat)
    requires d < |tallies|
    ensures var e := Rescheduled(k, tallies, d, next);
            e.stack == [RUN] && ItemsKnown(e, 0) && !EndsWell(e) && EndRun(e).stack == [] && EndRun(e).zones == [0, 1] &&
            |EndRun(e).tasks| == 1 && EndRun(e).tasks[0].state.Scheduled? &&
            if k.Repeats()
            then EndRun(e).tasks == e.tasks && EndRun(e).tallies == e.tallies
            else EndRun(e).tasks[0].list == Null && !EndRun(e).tasks[0].counted && EndRun(e).tallies == tallies
  {
    var e := Rescheduled(k, tallies, d, next);
    BumpOne(e.tallies, d, k.ty, -1);
    assert Charged(e.tallies, d, k.ty, -1) == tallies;
    assert e.stack[..0] == [] && ZonesOf([]) == [0] && e.zones == [0, 1];
    assert EndRun(e).stack == e.stack[..0];
  }

  /** The discipline is needed, in runs that begin with nothing scheduled. When the run of the rescheduled task ends,
      its zone frame stays behind; a repeating task keeps its array and its count, a one-shot task loses both. */
  lemma ReschedulingWhileRunningBreaks(k: Task, tallies: seq<Tally>, d: nat, next: nat)
    requires d < |tallies| && Initial(Single(k, tallies, [], next)) && k.zone == -1
    ensures var s, e := Single(k, tallies, [], next), Rescheduled(k, tallies, d, next);
            Inv(s) && Reaches(s, TREE, Rescheduling(d), e) && Inv(e)
    ensures var e := Rescheduled(k, tallies, d, next);
            e.stack == [RUN] && ItemsKnown(e, 0) && !Inv(EndRun(e)) && EndRun(e).stack == [] && EndRun(e).zones == [0, 1] &&
            |EndRun(e).tasks| == 1 && EndRun(e).tasks[0].state.Scheduled? &&
            if k.Repeats()
            then EndRun(e).tasks == e.tasks && EndRun(e).tallies == e.tallies
            else EndRun(e).tasks[0].list == Null && !EndRun(e).tasks[0].counted && EndRun(e).tallies == tallies
  {
    InitialInv(Single(k, tallies, [], next));
    assert Single(k, tallies, [], next).tasks[0] == k;
    ReachesRescheduled(k, tallies, d, next);
    RescheduledEnds(k, tallies, d, next);
    EndRunKeeps(Rescheduled(k, tallies, d, next));
  }

  /** Neither may a hook forward a request for a task that is counted: it enlists a delegate without counting it. */
  lemma ForwardingCountedBreaks(k: Task, tallies: seq<Tally>, d: nat, extra: nat, next: nat)
    requires d < |tallies| && extra < |tallies| && Initial(Single(k, tallies, [], next)) && k.zone == -1
    ensures var s, e := Single(k, tallies, [], next), FirstScheduled(k, tallies, d, next);
            Inv(s) && Reaches(s, TREE, ScheduleFirst(d, []), e) && Inv(e) && e.tasks[0].list.List? &&
            !Inv(Enlist(e, 0, extra)) &&
            Owed(Enlist(e, 0, extra).tasks, extra, k.ty) == Enlist(e, 0, extra).tallies[extra].Of(k.ty) + 1
  {
    var s, e := Single(k, tallies, [], next), FirstScheduled(k, tallies, d, next);
    InitialInv(s);
    assert s.tasks[0] == k;
    ScheduleOn(k, tallies, d, [], next, [], e);
    EnlistKeeps(e, 0, extra);
    OneMoreOwed(e, extra);
  }

  lemma OneMoreOwed(s: State, d: nat)
    requires Inv(s) && |s.tasks| == 1 && s.tasks[0].counted && s.tasks[0].list.List? && d < |s.tallies|
    ensures Owed(Enlist(s, 0, d).tasks, d, s.tasks[0].ty) == Enlist(s, 0, d).tallies[d].Of(s.tasks[0].ty) + 1
  {
    var r := Enlist(s, 0, d);
    OwedUpdate(s.tasks, 0, r.tasks[0], d, s.tasks[0].ty);
    assert r.tasks[0].list.items[..|s.tasks[0].list.items|] == s.tasks[0].list.items;
  }
}
