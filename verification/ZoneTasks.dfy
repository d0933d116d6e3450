/** The Zone.js runtime: task objects, zone delegates with their counts, the zone frame and the
    current task, changed step by step as the methods of `Zone` and `ZoneTask` do.

    A method is split where it calls user code. Between the parts any other part may run.
 */
module ZoneTasks {
  import opened ZoneLedger

  class TaskObject {
    const ty: TaskType
    const periodic: bool
    var state: TaskState
    var zone: int
    var list: DelegateList
    var runCount: nat
    ghost var counted: bool
    /** Where the task stands among all tasks. */
    ghost const id: nat

    ghost function View(): Task
      reads this
    {
      Task(ty, periodic, state, zone, list, runCount, counted)
    }

    constructor (ty: TaskType, periodic: bool, ghost id: nat)
      ensures View() == Task(ty, periodic, TaskState.NotScheduled, -1, Null, 0, false) && this.id == id
    {
      this.ty, this.periodic, this.id := ty, periodic, id;
      state, zone, list, runCount, counted := TaskState.NotScheduled, -1, Null, 0, false;
    }

    /** `_transitionTo`: refuses unless the task is in one of the two expected states. */
    method TransitionTo(to: TaskState, expected: TaskState, or: TaskState) returns (ok: bool)
      modifies this`state, this`list
      ensures ok <==> old(state) == expected || old(state) == or
      ensures if ok then state == to && list == (if to.NotScheduled? then Null else old(list))
              else state == old(state) && list == old(list)
    {
      if state != expected && state != or {
        return false;
      }
      state := to;
      if to.NotScheduled? {
        list := Null;
      }
      return true;
    }
  }

  class Delegate {
    /** Whether the zone, or one above it, watches its tasks. */
    const watches: bool
    var tally: Tally
    ghost const id: nat

    constructor (watches: bool, ghost id: nat)
      ensures tally == Tally(0, 0, 0) && this.watches == watches && this.id == id
    {
      this.watches, this.id := watches, id;
      tally := Tally(0, 0, 0);
    }

    /** Changes one count; a count below zero is an error, raised after the change. */
    method UpdateTaskCount(ty: TaskType, n: int) returns (ok: bool)
      modifies this
      ensures tally == old(tally).Plus(ty, n) && (ok <==> tally.Of(ty) >= 0)
    {
      tally := tally.Plus(ty, n);
      return tally.Of(ty) >= 0;
    }
  }

  class Runtime {
    /** Each zone's parent, -1 for the root zone 0. */
    const tree: seq<int>
    const tasks: seq<TaskObject>
    const delegates: seq<Delegate>
    /** The calls in progress, the zone frames, the current task, and a supply of array identities. */
    var stack: seq<Frame>
    var zones: seq<nat>
    var current: int
    var next: nat
    ghost var view: State

    ghost predicate TasksAre(ks: seq<Task>)
      reads tasks
    {
      |ks| == |tasks| && forall i :: 0 <= i < |tasks| ==> tasks[i].View() == ks[i]
    }

    ghost predicate TalliesAre(ts: seq<Tally>)
      reads delegates
    {
      |ts| == |delegates| && forall d :: 0 <= d < |delegates| ==> delegates[d].tally == ts[d]
    }

    ghost predicate WellFormed() {
      (forall k :: 0 <= k < |tree| ==> -1 <= tree[k] < k) &&
      (forall i :: 0 <= i < |tasks| ==> tasks[i].id == i) &&
      (forall d :: 0 <= d < |delegates| ==> delegates[d].id == d)
    }

    ghost predicate Mirrors()
      reads this, tasks, delegates
    {
      TasksAre(view.tasks) && TalliesAre(view.tallies) &&
      view.stack == stack && view.zones == zones && view.current == current && view.next == next
    }

    ghost predicate Valid()
      reads this, tasks, delegates
    {
      WellFormed() && Mirrors() && Inv(view)
    }

    constructor (tree: seq<int>, tasks: seq<TaskObject>, delegates: seq<Delegate>)
      requires forall k :: 0 <= k < |tree| ==> -1 <= tree[k] < k
      requires forall i :: 0 <= i < |tasks| ==> tasks[i].id == i && tasks[i].state.NotScheduled? && tasks[i].list == Null && !tasks[i].counted
      requires forall d :: 0 <= d < |delegates| ==> delegates[d].id == d && delegates[d].tally == Tally(0, 0, 0)
      ensures Valid() && Initial(view) && this.tasks == tasks && this.delegates == delegates && this.tree == tree
    {
      this.tree, this.tasks, this.delegates := tree, tasks, delegates;
      stack, zones, current, next := [], [0], -1, 0;
      new;
      view := State(seq(|tasks|, i requires 0 <= i < |tasks| reads tasks => tasks[i].View()),
                    seq(|delegates|, _ => Tally(0, 0, 0)), [], [0], -1, 0);
      InitialInv(view);
    }

    /** Walks up from zone `z` looking for zone `a`. */
    method IsUnder(z: nat, a: int) returns (found: bool)
      requires WellFormed() && z < |tree|
      ensures found <==> Below(tree, z, a)
      ensures found == Under(tree, z, a)
    {
      UnderMeans(tree, z, a);
      var t: int := z;
      while t >= 0
        invariant -1 <= t < |tree|
        invariant Under(tree, z, a) == Under(tree, t, a)
      {
        if t == a {
          return true;
        }
        t := tree[t];
      }
      return false;
    }

    /** `_updateTaskCount`: passes the change on to every delegate in the task's array. */
    method UpdateTaskCount(t: nat, n: int) returns (ok: bool)
      requires WellFormed() && Mirrors() && t < |tasks| && (n == 1 || n == -1)
      requires tasks[t].list.List? && ItemsKnown(view, t)
      requires forall d :: 0 <= d < |delegates| ==>
        view.tallies[d].Of(view.tasks[t].ty) >= if n == 1 then 0 else Multiplicity(view.tasks[t].list.items, d)
      modifies tasks, delegates, this`view
      ensures ok && Mirrors() && view == if n == 1 then CountUp(old(view), t) else CountDown(old(view), t)
    {
      var items: seq<nat>, ty := tasks[t].list.items, tasks[t].ty;
      ghost var after := if n == 1 then CountUp(view, t) else CountDown(view, t);
      if n == -1 {
        tasks[t].list := Null;
      }
      tasks[t].counted := n == 1;
      PassOn(items, ty, n);
      view := after;
      return true;
    }

    /** The loop over the array: no delegate finds its count negative. */
    method PassOn(items: seq<nat>, ty: TaskType, n: int)
      requires WellFormed() && TalliesAre(view.tallies) && (n == 1 || n == -1)
      requires forall j :: 0 <= j < |items| ==> items[j] < |delegates|
      requires forall d :: 0 <= d < |delegates| ==> view.tallies[d].Of(ty) >= if n == 1 then 0 else Multiplicity(items, d)
      modifies delegates
      ensures TalliesAre(Bump(view.tallies, items, ty, n))
    {
      var o := 0;
      ghost var now := view.tallies;
      while o < |items|
        invariant 0 <= o <= |items|
        invariant now == Bump(view.tallies, items[..o], ty, n) && TalliesAre(now)
      {
        BumpStep(view.tallies, items, o, ty, n);
        var d: Delegate := delegates[items[o]];
        var fine := d.UpdateTaskCount(ty, n);
        assert fine;
        now, o := now[items[o] := now[items[o]].Plus(ty, n)], o + 1;
      }
      assert items[..o] == items;
    }

    /** A transition of task `t`. */
    method Transition(t: nat, to: TaskState, expected: TaskState, or: TaskState) returns (ok: bool)
      requires WellFormed() && Mirrors() && t < |tasks|
      modifies this`view, tasks
      ensures Mirrors() && (ok <==> old(view).tasks[t].state == expected || old(view).tasks[t].state == or)
      ensures view == if ok then SetState(old(view), t, to) else old(view)
    {
      ok := tasks[t].TransitionTo(to, expected, or);
      view := if ok then SetState(view, t, to) else view;
    }

    method ResetRunCount(t: nat)
      requires WellFormed() && Mirrors() && t < |tasks|
      modifies this`view, tasks
      ensures Mirrors() && view == old(view).(tasks := old(view).tasks[t := old(view).tasks[t].(runCount := 0)])
    {
      tasks[t].runCount := 0;
      view := view.(tasks := view.tasks[t := view.tasks[t].(runCount := 0)]);
    }

    /** `scheduleTask` up to the hooks. */
    method ScheduleBegins(z: nat, t: nat) returns (o: Outcome)
      requires Valid() && t < |tasks| && z < |tree|
      modifies this, tasks
      ensures Valid() && old(Valid())
      ensures if Legal(old(view), tree, Step.ScheduleBegins(z, t))
              then o == Done && view == Apply(old(view), tree, Step.ScheduleBegins(z, t))
              else o == Threw && view == old(view)
      ensures o == Threw <==>
                !old(tasks[t].state).NotScheduled? || (old(tasks[t].zone) !in {-1, z as int} && Below(tree, z, old(tasks[t].zone)))
      ensures o == Done ==> tasks[t].state.Scheduling? && tasks[t].zone == z && tasks[t].list == List(old(next), [])
    {
      UnderMeans(tree, z, tasks[t].zone);
      var e: TaskObject := tasks[t];
      if e.zone != -1 && e.zone != z {
        var under := IsUnder(z, e.zone);
        if under {
          return Threw;
        }
      }
      if !e.state.NotScheduled? {
        return Threw;
      }
      BeginScheduleKeeps(view, z, t);
      StartScheduling(z, t);
      return Done;
    }

    method StartScheduling(z: nat, t: nat)
      requires WellFormed() && Mirrors() && t < |tasks| && tasks[t].state.NotScheduled?
      modifies this, tasks
      ensures Mirrors() && view == BeginSchedule(old(view), z, t)
    {
      var e: TaskObject := tasks[t];
      var _ := e.TransitionTo(TaskState.Scheduling, TaskState.NotScheduled, TaskState.NotScheduled);
      e.list, e.zone := List(next, []), z;
      stack, next := stack + [Schedules(t, next)], next + 1;
      view := BeginSchedule(view, z, t);
    }

    /** A delegate's part of `scheduleTask`: one that watches tasks adds itself to the array, whatever has become
        of the task; only for a task that is already counted the counts are wrong from then on. */
    method DelegateSchedules(t: nat, d: nat) returns (o: Outcome)
      requires Valid() && t < |tasks| && d < |delegates|
      modifies this, tasks
      ensures WellFormed() && Mirrors() && old(Valid())
      ensures if !delegates[d].watches then o == Done && view == old(view)
              else if old(view).tasks[t].list.List? then o == Done && view == Enlist(old(view), t, d)
              else o == Threw && view == old(view)
      ensures Valid() <==> o == Threw || !delegates[d].watches || Legal(old(view), tree, DelegateEnlists(t, d))
      ensures o == Done && delegates[d].watches ==>
                old(tasks[t].list).List? && tasks[t].list == List(old(tasks[t].list).id, old(tasks[t].list).items + [d])
    {
      var e: TaskObject := tasks[t];
      if delegates[d].watches {
        if e.list.Null? {
          return Threw;
        }
        e.list := List(e.list.id, e.list.items + [d]);
        EnlistKeeps(view, t, d);
        view := Enlist(view, t, d);
      }
      return Done;
    }

    /** `scheduleTask` after the hooks have returned. */
    method ScheduleReturns()
      requires Valid() && Legal(view, tree, Step.ScheduleReturns)
      modifies this, tasks, delegates
      ensures Valid() && old(Valid()) && view == Apply(old(view), tree, Step.ScheduleReturns)
      ensures var t := old(stack)[|old(stack)| - 1].task;
              t < |tasks| && tasks[t].state == (if old(tasks[t].state).Scheduling? then TaskState.Scheduled else old(tasks[t].state))
    {
      TopSchedule(view);
      EndScheduleKeeps(view);
      ghost var s := view;
      var f := stack[|stack| - 1];
      var e: TaskObject := tasks[f.task];
      if e.list.List? && e.list.id == f.id {
        var _ := UpdateTaskCount(f.task, 1);
      }
      if e.state.Scheduling? {
        var _ := Transition(f.task, TaskState.Scheduled, TaskState.Scheduling, TaskState.Scheduling);
      }
      Leave();
    }

    /** `scheduleTask` when a hook has thrown; a failing transition replaces the exception. */
    method ScheduleThrows()
      requires Valid() && Legal(view, tree, Step.ScheduleThrows)
      modifies this, tasks
      ensures Valid() && old(Valid()) && view == Apply(old(view), tree, Step.ScheduleThrows)
      ensures var t := old(stack)[|old(stack)| - 1].task;
              t < |tasks| &&
              tasks[t].state ==
                if old(tasks[t].state) in {TaskState.Scheduling, TaskState.NotScheduled} then Unknown else old(tasks[t].state)
    {
      TopSchedule(view);
      FailScheduleKeeps(view);
      var f := stack[|stack| - 1];
      var _ := Transition(f.task, Unknown, TaskState.Scheduling, TaskState.NotScheduled);
      Leave();
    }

    /** `cancelScheduleRequest`. */
    method CancelScheduleRequest(t: nat) returns (o: Outcome)
      requires Valid() && t < |tasks|
      modifies this, tasks
      ensures Valid() && old(Valid())
      ensures if Legal(old(view), tree, RequestCancelled(t))
              then o == Done && view == Apply(old(view), tree, RequestCancelled(t))
              else o == Threw && view == old(view)
      ensures o == Done <==> old(tasks[t].state).Scheduling?
      ensures o == Done ==> tasks[t].state.NotScheduled? && tasks[t].list == Null
    {
      ghost var s := view;
      var ok := Transition(t, TaskState.NotScheduled, TaskState.Scheduling, TaskState.Scheduling);
      if !ok {
        return Threw;
      }
      CancelRequestKeeps(s, t);
      return Done;
    }

    /** `runTask` up to the callback. A cancelled macro or event task is ignored. */
    method RunBegins(z: nat, t: nat) returns (o: Outcome)
      requires Valid() && t < |tasks|
      modifies this, tasks
      ensures Valid() && old(Valid())
      ensures if Legal(old(view), tree, Step.RunBegins(z, t))
              then o == Done && view == Apply(old(view), tree, Step.RunBegins(z, t))
              else o == (if old(tasks[t].zone) == z && old(tasks[t].state).NotScheduled? && !tasks[t].ty.Micro? then Ignored else Threw) &&
                   view == old(view)
      ensures o == Done <==> old(tasks[t].zone) == z && old(tasks[t].state) in {TaskState.Scheduled, TaskState.Running}
      ensures o == Done ==> tasks[t].state.Running? && tasks[t].runCount == old(tasks[t].runCount) + 1
      ensures o == Done ==> current == t && zones == old(zones) + [z]
    {
      var e: TaskObject := tasks[t];
      if e.zone != z {
        return Threw;
      }
      if e.state.NotScheduled? && (e.ty.Event? || e.ty.Macro?) {
        return Ignored;
      }
      if !e.state.Running? && !e.state.Scheduled? {
        return Threw;
      }
      BeginRunKeeps(view, z, t);
      StartRunning(z, t);
      return Done;
    }

    method StartRunning(z: nat, t: nat)
      requires WellFormed() && Mirrors() && t < |tasks| && (tasks[t].state.Running? || tasks[t].state.Scheduled?)
      modifies this, tasks
      ensures Mirrors() && view == BeginRun(old(view), z, t)
    {
      var e: TaskObject := tasks[t];
      var moved := !e.state.Running?;
      if moved {
        var _ := e.TransitionTo(TaskState.Running, TaskState.Scheduled, TaskState.Scheduled);
      }
      e.runCount := e.runCount + 1;
      stack := stack + [Runs(t, moved, current, z)];
      current, zones := t, zones + [z];
      view := BeginRun(view, z, t);
    }

    /** `runTask` after the callback has returned or thrown: the `finally` block. It throws for a task that is
        scheduled again in the run that moved it. */
    method RunEnds() returns (o: Outcome)
      requires Valid() && stack != [] && Top(view).Runs?
      modifies this, tasks, delegates
      ensures WellFormed() && Mirrors() && old(Valid()) && Ending(old(view)) && view == EndRun(old(view))
      ensures Valid() <==> EndsWell(old(view))
      ensures o == if old(view).tasks[Top(old(view)).task].state.Scheduled? && Top(old(view)).moved then Threw else Done
      ensures o == Done ==> zones == old(zones)[..|old(zones)| - 1] && current == old(stack)[|old(stack)| - 1].previous
      ensures o == Done ==> EndsAs(old(view).tasks[Top(old(view)).task], view.tasks[Top(old(view)).task], Top(old(view)).moved)
    {
      TopRun(view);
      EndRunKeeps(view);
      var t := stack[|stack| - 1].task;
      if !tasks[t].state.NotScheduled? && !tasks[t].state.Unknown? {
        if tasks[t].ty.Event? || tasks[t].periodic {
          o := RepeatingEnds();
        } else {
          CountsCover(view, t);
          o := OneShotEnds();
        }
      } else {
        LeaveRun();
        o := Done;
      }
    }

    /** The last part of the block: the zone frame and the current task of before. */
    method LeaveRun()
      requires Mirrors() && stack != [] && zones != [] && stack[|stack| - 1].Runs?
      modifies this`stack, this`zones, this`current, this`view
      ensures Mirrors() && view == Restore(old(view))
    {
      current := stack[|stack| - 1].previous;
      stack, zones := stack[..|stack| - 1], zones[..|zones| - 1];
      view := Restore(view);
    }

    /** Leaves a call other than a run. */
    method Leave()
      requires Mirrors() && stack != []
      modifies this`stack, this`view
      ensures Mirrors() && view == Pop(old(view))
    {
      stack := stack[..|stack| - 1];
      view := Pop(view);
    }

    /** A task that repeats is scheduled again at the end of the run that moved it. */
    method RepeatingEnds() returns (o: Outcome)
      requires WellFormed() && Mirrors() && stack != [] && zones != [] && Top(view).Runs? && Top(view).task < |tasks|
      requires var k := view.tasks[Top(view).task]; k.Repeats() && k.state in {TaskState.Running, TaskState.Scheduled}
      modifies this, tasks
      ensures Mirrors() && view == EndRun(old(view))
      ensures o == if old(view).tasks[Top(old(view)).task].state.Scheduled? && Top(old(view)).moved then Threw else Done
    {
      var f := stack[|stack| - 1];
      if f.moved {
        var ok := Transition(f.task, TaskState.Scheduled, TaskState.Running, TaskState.Running);
        if !ok {
          Leave();
          return Threw;
        }
      }
      LeaveRun();
      return Done;
    }

    /** A one-shot task is counted down; the run that moved it makes it not scheduled. */
    method OneShotEnds() returns (o: Outcome)
      requires WellFormed() && Mirrors() && stack != [] && zones != [] && Top(view).Runs? && Top(view).task < |tasks|
      requires var k := view.tasks[Top(view).task];
               !k.Repeats() && k.state in {TaskState.Running, TaskState.Scheduled} && k.list.List?
      requires ItemsKnown(view, Top(view).task)
      requires var k := view.tasks[Top(view).task];
               forall d :: 0 <= d < |view.tallies| ==> view.tallies[d].Of(k.ty) >= Multiplicity(k.list.items, d)
      modifies this, tasks, delegates
      ensures Mirrors() && view == EndRun(old(view))
      ensures o == if old(view).tasks[Top(old(view)).task].state.Scheduled? && Top(old(view)).moved then Threw else Done
    {
      var f := stack[|stack| - 1];
      ResetRunCount(f.task);
      var _ := UpdateTaskCount(f.task, -1);
      if f.moved {
        var ok := Transition(f.task, TaskState.NotScheduled, TaskState.Running, TaskState.NotScheduled);
        if !ok {
          Leave();
          return Threw;
        }
      }
      LeaveRun();
      return Done;
    }

    /** `cancelTask` up to the hooks. */
    method CancelBegins(z: nat, t: nat) returns (o: Outcome)
      requires Valid() && t < |tasks|
      modifies this, tasks
      ensures Valid() && old(Valid())
      ensures if Legal(old(view), tree, Step.CancelBegins(z, t))
              then o == Done && view == Apply(old(view), tree, Step.CancelBegins(z, t))
              else o == Threw && view == old(view)
      ensures o == Done <==> old(tasks[t].zone) == z && old(tasks[t].state) in {TaskState.Scheduled, TaskState.Running}
      ensures o == Done ==> tasks[t].state.Canceling? && tasks[t].list == old(tasks[t].list)
    {
      var e: TaskObject := tasks[t];
      if e.zone != z {
        return Threw;
      }
      ghost var s := view;
      var ok := Transition(t, TaskState.Canceling, TaskState.Scheduled, TaskState.Running);
      if !ok {
        return Threw;
      }
      BeginCancelKeeps(s, t);
      stack := stack + [Cancels(t)];
      view := view.(stack := stack);
      return Done;
    }

    /** `cancelTask` after the hooks have returned. */
    method CancelReturns() returns (o: Outcome)
      requires Valid() && Legal(view, tree, Step.CancelReturns)
      modifies this, tasks, delegates
      ensures Valid() && old(Valid()) && o == Done && view == Apply(old(view), tree, Step.CancelReturns)
      ensures var t := old(stack)[|old(stack)| - 1].task;
              t < |tasks| && tasks[t].state.NotScheduled? && tasks[t].list == Null && tasks[t].runCount == 0
    {
      TopCancel(view);
      EndCancelKeeps(view);
      CountsCover(view, stack[|stack| - 1].task);
      CancelledTaskCountsDown();
      return Done;
    }

    method CancelledTaskCountsDown()
      requires WellFormed() && Mirrors() && stack != [] && Top(view).Cancels? && Top(view).task < |tasks|
      requires var k := view.tasks[Top(view).task]; k.state.Canceling? && k.list.List?
      requires ItemsKnown(view, Top(view).task)
      requires var k := view.tasks[Top(view).task];
               forall d :: 0 <= d < |view.tallies| ==> view.tallies[d].Of(k.ty) >= Multiplicity(k.list.items, d)
      modifies this, tasks, delegates
      ensures Mirrors() && view == EndCancel(old(view))
    {
      var t := stack[|stack| - 1].task;
      var _ := UpdateTaskCount(t, -1);
      var _ := Transition(t, TaskState.NotScheduled, TaskState.Canceling, TaskState.Canceling);
      ResetRunCount(t);
      Leave();
    }

    /** `cancelTask` when a hook, or a missing cancel function, has thrown: the task stays counted. */
    method CancelThrows()
      requires Valid() && Legal(view, tree, Step.CancelThrows)
      modifies this, tasks
      ensures Valid() && old(Valid()) && view == Apply(old(view), tree, Step.CancelThrows)
      ensures var t := old(stack)[|old(stack)| - 1].task;
              t < |tasks| && tasks[t].state.Unknown? && tasks[t].list == old(tasks[t].list)
    {
      TopCancel(view);
      FailCancelKeeps(view);
      var _ := Transition(stack[|stack| - 1].task, Unknown, TaskState.Canceling, TaskState.Canceling);
      Leave();
    }
  }

  /** How a run that does not throw leaves its task: a repeating one scheduled again, any other not scheduled and with its
      runs forgotten, unless the task was cancelled or the run had joined another. */
  ghost predicate EndsAs(was: Task, now: Task, moved: bool) {
    if was.state in {TaskState.NotScheduled, Unknown} then now == was
    else if was.ty.Event? || was.periodic then now == was.(state := if moved then TaskState.Scheduled else was.state)
    else now.runCount == 0 && now.list == Null && !now.counted && now.state == if moved then TaskState.NotScheduled else was.state
  }

  /** Every count is large enough to take a counted task's share off. */
  lemma CountsCover(s: State, t: nat)
    requires Inv(s) && t < |s.tasks| && s.tasks[t].counted && s.tasks[t].list.List?
    ensures forall d :: 0 <= d < |s.tallies| ==>
      s.tallies[d].Of(s.tasks[t].ty) >= Multiplicity(s.tasks[t].list.items, d)
  {
    forall d | 0 <= d < |s.tallies|
      ensures s.tallies[d].Of(s.tasks[t].ty) >= Multiplicity(s.tasks[t].list.items, d)
    {
      OwedUpdate(s.tasks, t, s.tasks[t].(counted := false), d, s.tasks[t].ty);
    }
  }

  /** The next delegate of the array; it still owes at least what remains to be taken off. */
  lemma BumpStep(tallies: seq<Tally>, items: seq<nat>, o: nat, ty: TaskType, n: int)
    requires o < |items| && forall k :: 0 <= k < |items| ==> items[k] < |tallies|
    ensures var now, d := Bump(tallies, items[..o], ty, n), items[o];
            Bump(tallies, items[..o + 1], ty, n) == now[d := now[d].Plus(ty, n)]
    ensures (n == 1 && tallies[items[o]].Of(ty) >= 0) || (n == -1 && tallies[items[o]].Of(ty) >= Multiplicity(items, items[o])) ==>
              Bump(tallies, items[..o], ty, n)[items[o]].Of(ty) + n >= 0
  {
    assert items[..o + 1][..o] == items[..o];
    BumpAdds(tallies, items[..o], ty, n, items[o], ty);
    MultiplicityGrows(items, o);
  }

  lemma {:induction false} MultiplicityGrows(items: seq<nat>, o: nat)
    requires o < |items|
    ensures Multiplicity(items[..o], items[o]) < Multiplicity(items, items[o])
    decreases |items|
  {
    var m := |items| - 1;
    if o < m {
      assert items[..m][..o] == items[..o];
      MultiplicityGrows(items[..m], o);
    }
  }
}
