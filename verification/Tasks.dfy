/** The scheduler as it is stored: task states and a ready queue linked through them. */
module Tasks {
  import opened DList
  import opened Sched

  class Scheduler {
    var states: map<Ptr, TState>
    var links: Links
    var head: Ptr
    var tail: Ptr
    var current: Ptr
    var idle: Ptr
    var active: bool
    var needResched: bool
    ghost var queue: seq<Ptr>

    ghost function View(): State
      reads this
    {
      State(states, queue, current, idle)
    }

    /** The ready queue is a well-formed doubly linked list of distinct tasks. */
    ghost predicate Valid()
      reads this
    {
      IsList(links, queue) && head == First(queue) && tail == Last(queue)
    }

    /** The boot task has the CPU; the idle task is the first in the queue. */
    constructor (boot: Ptr, idleTask: Ptr)
      requires boot != NULL && idleTask != NULL && boot != idleTask
      ensures Valid() && View() == State(map[boot := Running, idleTask := Ready], [idleTask], boot, idleTask)
      ensures Deciding(View()) && !active
    {
      states := map[boot := Running, idleTask := Ready];
      links := map[idleTask := Link(NULL, NULL)];
      head, tail := idleTask, idleTask;
      current := boot;
      idle := idleTask;
      active := false;
      needResched := false;
      queue := [idleTask];
    }

    method ReadyPush(t: Ptr)
      requires Valid() && t != NULL && t !in queue
      modifies `links, `head, `tail, `queue
      ensures Valid() && queue == old(queue) + [t]
    {
      LinkBackList(links, queue, t);
      links := links[t := Link(NULL, tail)];
      if tail != NULL {
        links := SetNext(links, tail, t);
      } else {
        head := t;
      }
      tail := t;
      queue := queue + [t];
    }

    method ReadyPop() returns (t: Ptr)
      requires Valid()
      modifies `links, `head, `tail, `queue
      ensures Valid()
      ensures if old(queue) == [] then t == NULL && queue == [] else t == old(queue)[0] && queue == old(queue)[1..]
    {
      t := head;
      if t == NULL {
        assert queue != [] ==> NodeOk(links, queue, 0);
        return;
      }
      UnlinkList(links, queue, 0);
      Neighbours(links, queue, 0);
      head := links[t].next;
      if head != NULL {
        links := SetPrev(links, head, NULL);
      } else {
        tail := NULL;
      }
      links := links[t := Link(NULL, NULL)];
      assert Without(queue, 0) == queue[1..];
      queue := queue[1..];
    }

    method ReadyRemove(t: Ptr)
      requires Valid() && t in queue
      modifies `links, `head, `tail, `queue
      ensures Valid() && t !in queue
      ensures exists k :: 0 <= k < |old(queue)| && old(queue)[k] == t && queue == Without(old(queue), k)
    {
      ghost var k := FindIndex(queue, t);
      UnlinkList(links, queue, k);
      Neighbours(links, queue, k);
      WithoutNoDup(queue, k);
      var prev, next := links[t].prev, links[t].next;
      if prev != NULL {
        links := SetNext(links, prev, next);
      } else {
        head := next;
      }
      if next != NULL {
        links := SetPrev(links, next, prev);
      } else {
        tail := prev;
      }
      links := links[t := Link(NULL, NULL)];
      queue := Without(queue, k);
    }

    method ScheduleInternal()
      requires Valid()
      modifies this
      ensures Valid() && View() == Schedule(old(View())) && active == old(active) && needResched == old(needResched)
    {
      var next := ReadyPop();
      if next == NULL {
        assert old(queue) != [] ==> NodeOk(old(links), old(queue), 0);
        if current in states && states[current] == Running {
          return;
        }
        next := idle;
        if next == NULL {
          return;
        }
      }
      if next == current {
        states := states[current := Running];
        return;
      }
      states := states[next := Running];
      current := next;
    }

    method DoYield()
      requires Valid() && Inv(View())
      modifies this
      ensures Valid() && Inv(View()) && View() == Yield(old(View())) && active == old(active)
    {
      YieldInv(View());
      ReadyPush(current);
      ScheduleInternal();
    }

    method DoBlock()
      requires Valid() && Inv(View()) && current != idle
      modifies this
      ensures Valid() && Inv(View()) && View() == Block(old(View())) && active == old(active)
    {
      BlockInv(View());
      states := states[current := Blocked];
      ScheduleInternal();
    }

    /** A kernel task returns from its entry function. */
    method DoFinish()
      requires Valid() && Inv(View()) && current != idle
      modifies this
      ensures Valid() && Inv(View()) && View() == Finish(old(View())) && active == old(active)
    {
      FinishInv(View());
      states := states[current := Dead];
      ScheduleInternal();
    }

    method DoWake(t: Ptr)
      requires Valid() && Inv(View()) && t in states
      modifies this
      ensures Valid() && Inv(View()) && View() == Wake(old(View()), t) && active == old(active)
    {
      WakeInv(View(), t);
      if states[t] == Blocked {
        states := states[t := Ready];
        ReadyPush(t);
      }
    }

    method DoPreempt()
      requires Valid() && Inv(View())
      modifies this
      ensures Valid() && Inv(View()) && !needResched && active == old(active)
      ensures View() == if old(active) then Preempt(old(View())) else old(View())
    {
      needResched := false;
      if !active {
        return;
      }
      PreemptInv(View());
      if states[current] == Running {
        states := states[current := Ready];
        ReadyPush(current);
      }
      ScheduleInternal();
    }

    method DoEnqueue(t: Ptr)
      requires Valid() && t !in states && t != NULL && t !in queue
      modifies this
      ensures Valid() && View() == Enqueue(old(View()), t) && active == old(active)
    {
      states := states[t := Ready];
      ReadyPush(t);
    }

    method StartScheduler()
      requires Valid() && Deciding(View())
      modifies this
      ensures Valid() && Inv(View()) && View() == Start(old(View())) && active
    {
      StartInv(View());
      var next := ReadyPop();
      active := true;
      states := states[next := Running];
      current := next;
    }
  }
}
