/** When timers run, over every run of the wheel. */
module WheelRuns {
  import opened Wheel

  /** A state together with where each entry is. */
  datatype Conf = Conf(w: State, loc: map<Ptr, Place>)

  ghost predicate Step(c: Conf, op: Op, c': Conf) {
    Allowed(c.w, op) && c' == Conf(Apply(c.w, op), Moved(c.w, c.loc, op))
  }

  lemma StepInv(c: Conf, op: Op, c': Conf)
    requires Inv(c.w, c.loc) && Step(c, op, c')
    ensures Inv(c'.w, c'.loc)
  {
    hide Inv;
    hide Create;
    hide Settle;
    hide Cascade;
    match op
    case OpCreate(deadline, period) => CreateInv(c.w, c.loc, deadline, period);
    case OpTick => TickInv(c.w, c.loc);
    case OpDrain => DrainInv(c.w, c.loc);
    case OpDrained => DrainedInv(c.w, c.loc);
    case OpCascade => CascadeInv(c.w, c.loc);
    case OpSettle => SettleInv(c.w, c.loc);
    case OpCascaded => CascadedInv(c.w, c.loc);
  }

  ghost predicate Run(trace: seq<Conf>, ops: seq<Op>) {
    |trace| == |ops| + 1 && forall i :: 0 <= i < |ops| ==> Step(trace[i], ops[i], trace[i + 1])
  }

  lemma {:induction false} RunInv(trace: seq<Conf>, ops: seq<Op>, n: nat)
    requires Run(trace, ops) && Inv(trace[0].w, trace[0].loc) && n < |trace|
    ensures Inv(trace[n].w, trace[n].loc)
  {
    hide Inv;
    hide Step;
    if n > 0 {
      RunInv(trace, ops, n - 1);
      StepInv(trace[n - 1], ops[n - 1], trace[n]);
    }
  }

  /** The wheel as it is set up: every entry is free. */
  ghost predicate Fresh(w: State, loc: map<Ptr, Place>) {
    && |w.level0| == |w.level1| == BUCKETS && (forall s :: 0 <= s < BUCKETS ==> w.level0[s] == [] && w.level1[s] == [])
    && |w.free| == POOL && (forall i :: 0 <= i < POOL ==> w.free[i] == i + 1)
    && w.held == NONE && w.cursor == 0 && w.l1cursor == 0 && w.now == 0 && w.phase == Idle
    && (forall p: Ptr :: p in w.entry <==> 0 < p <= POOL) && (forall p :: p in w.entry ==> w.entry[p] == Entry(0, 0))
    && (forall p: Ptr :: p in loc <==> 0 < p <= POOL) && (forall p :: p in loc ==> loc[p] == InFree)
  }

  lemma FreshInv(w: State, loc: map<Ptr, Place>)
    requires Fresh(w, loc)
    ensures Inv(w, loc)
  {
    assert w.entry.Keys == loc.Keys;
    forall p: Ptr | 0 < p <= POOL
      ensures p in w.free
    {
      assert w.free[p - 1] == p;
    }
  }

  // ----- never early -----

  /** This step runs the callback of entry `p`. */
  ghost predicate Fires(w: State, op: Op, p: Ptr) {
    && Allowed(w, op)
    && ((op == OpDrain && w.level0[w.cursor][0] == p)
        || (op == OpCascade && w.level1[w.l1cursor][0] == p && Remaining(w.entry[p].deadline, w.now) == 0)
        || (op.OpCreate? && w.free[0] == p && SPAN <= Remaining(op.deadline, w.now)))
  }

  lemma DueNow(w: State, loc: map<Ptr, Place>, p: Ptr)
    requires Inv(w, loc) && Fires(w, OpDrain, p)
    ensures p in loc && loc[p] == In0(w.cursor) && DueAt(w, w.cursor) == w.now && p in w.entry && w.entry[p].deadline <= w.now
  {
    assert BucketOk(w.level0[w.cursor], loc, In0(w.cursor));
    assert p in w.level0[w.cursor];
  }

  /** The deadline the entry has when the step runs its callback. */
  ghost function DeadlineOf(w: State, op: Op, p: Ptr): nat
    requires p in w.entry
  {
    if op.OpCreate? then op.deadline else w.entry[p].deadline
  }

  /** A timer runs before its deadline, whichever levels it has crossed, exactly if it runs in
      its own creation, which needs a deadline 65536 or more ticks ahead. */
  lemma EarlyIff(trace: seq<Conf>, ops: seq<Op>, i: nat, p: Ptr)
    requires Run(trace, ops) && Inv(trace[0].w, trace[0].loc) && i < |ops| && Fires(trace[i].w, ops[i], p)
    ensures p in trace[i].w.entry
    ensures trace[i].w.now < DeadlineOf(trace[i].w, ops[i], p) <==> ops[i].OpCreate?
    ensures ops[i].OpCreate? ==> SPAN <= Remaining(ops[i].deadline, trace[i].w.now)
  {
    RunInv(trace, ops, i);
    if ops[i] == OpDrain {
      DueNow(trace[i].w, trace[i].loc, p);
    } else if ops[i].OpCreate? {
      TakeFree(trace[i].w, trace[i].loc);
    }
  }

  /** No timer runs before its deadline if none is created 65536 or more ticks ahead. */
  lemma NeverEarly(trace: seq<Conf>, ops: seq<Op>, i: nat, p: Ptr)
    requires Run(trace, ops) && Inv(trace[0].w, trace[0].loc) && i < |ops| && Fires(trace[i].w, ops[i], p)
    requires forall k :: 0 <= k < |ops| && ops[k].OpCreate? ==> Remaining(ops[k].deadline, trace[k].w.now) < SPAN
    ensures p in trace[i].w.entry && trace[i].w.entry[p].deadline <= trace[i].w.now
  {
    EarlyIff(trace, ops, i, p);
  }

  // ----- exactly on time -----

  /** Entry `p` waits in level 0 for tick `due`. */
  ghost predicate Pending(c: Conf, p: Ptr, due: nat) {
    c.w.cursor < BUCKETS && p in c.loc && c.loc[p].In0? && DueAt(c.w, c.loc[p].slot) == due
  }

  /** It stays there, due at the same tick, until it runs at that tick. */
  lemma StepPending(c: Conf, op: Op, c': Conf, p: Ptr, due: nat)
    requires Inv(c.w, c.loc) && Step(c, op, c') && Pending(c, p, due)
    ensures Pending(c', p, due) || (op == OpDrain && Fires(c.w, op, p) && c.w.now == due)
  {
    hide Filed;
    hide DueAt;
    hide Insert;
    hide Rearm;
    hide Inserted;
    hide PlaceAfter;
    FiledSizes(c.w, c.loc);
    match op
    case OpTick => TickPending(c, p);
    case OpDrained => DrainedPending(c, p);
    case OpCascaded => CascadedDue(c.w);
    case OpCreate(deadline, period) =>
      TakeFree(c.w, c.loc);
      SameClock(c, op, c');
    case OpDrain =>
      var q := c.w.level0[c.w.cursor][0];
      DueNow(c.w, c.loc, q);
      SameClock(c, op, c');
    case OpCascade =>
      TakeLevel1(c.w, c.loc);
      SameClock(c, op, c');
    case OpSettle =>
      HeldInHand(c);
      SameClock(c, op, c');
  }

  lemma HeldInHand(c: Conf)
    requires Inv(c.w, c.loc) && c.w.held in c.w.entry
    ensures c.w.held in c.loc && c.loc[c.w.held] == InHand
  {
  }

  /** Entries move between lists while the clock stands still. */
  lemma SameClock(c: Conf, op: Op, c': Conf)
    requires Step(c, op, c') && (op.OpCreate? || op.OpDrain? || op.OpCascade? || op.OpSettle?)
    ensures c'.w.cursor == c.w.cursor < BUCKETS && forall s :: 0 <= s < BUCKETS ==> DueAt(c'.w, s) == DueAt(c.w, s)
  {
    SameDue(c.w, c'.w);
  }

  lemma TickPending(c: Conf, p: Ptr)
    requires Allowed(c.w, OpTick) && p in c.loc && c.loc[p].In0?
    ensures DueAt(Apply(c.w, OpTick), c.loc[p].slot) == DueAt(c.w, c.loc[p].slot)
  {
  }

  lemma CascadedDue(w: State)
    requires Allowed(w, OpCascaded)
    ensures forall s :: 0 <= s < BUCKETS ==> DueAt(Cascaded(w), s) == DueAt(w, s)
  {
  }

  lemma DrainedPending(c: Conf, p: Ptr)
    requires Inv(c.w, c.loc) && Allowed(c.w, OpDrained) && p in c.loc && c.loc[p].In0?
    ensures DueAt(Drained(c.w), c.loc[p].slot) == DueAt(c.w, c.loc[p].slot)
  {
    assert BucketOk(c.w.level0[c.w.cursor], c.loc, In0(c.w.cursor));
    assert p !in c.w.level0[c.w.cursor];
    DueStays(c.w, c.loc[p].slot);
  }

  /** The first step from `i` on that runs `p` does so at tick `due`. */
  ghost predicate RanAt(trace: seq<Conf>, ops: seq<Op>, i: nat, k: nat, p: Ptr, due: nat) {
    && |trace| == |ops| + 1 && i <= k < |ops| && Fires(trace[k].w, ops[k], p) && trace[k].w.now == due
    && forall m :: i <= m < k ==> !Fires(trace[m].w, ops[m], p)
  }

  ghost predicate HasRun(trace: seq<Conf>, ops: seq<Op>, i: nat, j: nat, p: Ptr, due: nat) {
    exists k :: i <= k < j && RanAt(trace, ops, i, k, p, due)
  }

  lemma PendingQuiet(c: Conf, op: Op, p: Ptr, due: nat)
    requires Inv(c.w, c.loc) && Pending(c, p, due) && Fires(c.w, op, p)
    ensures op == OpDrain && c.w.now == due
  {
    if op == OpDrain {
      DueNow(c.w, c.loc, p);
    } else if op == OpCascade {
      TakeLevel1(c.w, c.loc);
    } else {
      TakeFree(c.w, c.loc);
    }
  }

  lemma {:induction false} PendingOrRan(trace: seq<Conf>, ops: seq<Op>, i: nat, j: nat, p: Ptr, due: nat) returns (k: nat)
    requires Run(trace, ops) && Inv(trace[0].w, trace[0].loc) && i <= j < |trace| && Pending(trace[i], p, due)
    ensures (k == j && Pending(trace[j], p, due) && forall m :: i <= m < j ==> !Fires(trace[m].w, ops[m], p))
            || (k < j && RanAt(trace, ops, i, k, p, due))
    decreases j - i
  {
    if i == j {
      k := j;
    } else {
      k := PendingOrRan(trace, ops, i, j - 1, p, due);
      if k == j - 1 && Pending(trace[k], p, due) {
        RunInv(trace, ops, k);
        assert Step(trace[k], ops[k], trace[j]);
        StepPending(trace[k], ops[k], trace[j], p, due);
        if Fires(trace[k].w, ops[k], p) {
          PendingQuiet(trace[k], ops[k], p, due);
        } else {
          k := j;
        }
      }
    }
  }

  /** Once the wheel has moved past tick `due`, the timer has run, first at that very tick. */
  lemma RunsExactlyThen(trace: seq<Conf>, ops: seq<Op>, i: nat, j: nat, p: Ptr, due: nat)
    requires Run(trace, ops) && Inv(trace[0].w, trace[0].loc) && i <= j < |trace| && Pending(trace[i], p, due)
    requires due < Base(trace[j].w)
    ensures HasRun(trace, ops, i, j, p, due)
  {
    var k := PendingOrRan(trace, ops, i, j, p, due);
  }

  /** A timer created between ticks with a delay of 1 to 255 is due one tick after its
      deadline: in the (delay + 1)-th tick that follows. */
  lemma CreatedDue(c: Conf, delay: nat, period: nat, c': Conf)
    requires Inv(c.w, c.loc) && 0 < delay < BUCKETS && Step(c, OpCreate(c.w.now + delay, period), c')
    ensures Pending(c', c.w.free[0], c.w.now + delay + 1)
  {
    DueAhead(c.w, delay);
    SameDue(c.w, c'.w);
  }

  /** A period of 1 to 255 makes the timer due exactly that many ticks after the one it runs in. */
  lemma RepeatedDue(c: Conf, c': Conf)
    requires Inv(c.w, c.loc) && c.w.phase == Draining && Step(c, OpSettle, c') && 0 < c.w.entry[c.w.held].period < BUCKETS
    ensures Pending(c', c.w.held, c.w.now + c.w.entry[c.w.held].period)
  {
    DueAhead(c.w, c.w.entry[c.w.held].period);
    SameDue(c.w, c'.w);
  }

  // ----- every firing -----

  /** Entry `p` waits in level 0 for tick `due` and will be armed again every `period` ticks. */
  ghost predicate Beating(c: Conf, p: Ptr, due: nat, period: nat) {
    Pending(c, p, due) && p in c.w.entry && c.w.entry[p].period == period
  }

  /** Until it runs, an entry keeps its period. */
  lemma StepBeating(c: Conf, op: Op, c': Conf, p: Ptr, due: nat, period: nat)
    requires Inv(c.w, c.loc) && Step(c, op, c') && Beating(c, p, due, period)
    ensures p in c'.w.entry && c'.w.entry[p].period == period
  {
    match op
    case OpCreate(_, _) => TakeFree(c.w, c.loc);
    case OpSettle => HeldInHand(c);
    case _ =>
  }

  lemma {:induction false} RunBeating(trace: seq<Conf>, ops: seq<Op>, i: nat, j: nat, p: Ptr, due: nat, period: nat)
    requires Run(trace, ops) && Inv(trace[0].w, trace[0].loc) && i <= j < |trace| && Beating(trace[i], p, due, period)
    requires forall m :: i <= m < j ==> !Fires(trace[m].w, ops[m], p)
    ensures Beating(trace[j], p, due, period)
    decreases j - i
  {
    hide Inv;
    hide Step;
    hide Pending;
    hide Fires;
    if i < j {
      RunBeating(trace, ops, i, j - 1, p, due, period);
      RunInv(trace, ops, j - 1);
      assert Step(trace[j - 1], ops[j - 1], trace[j]);
      StepPending(trace[j - 1], ops[j - 1], trace[j], p, due);
      StepBeating(trace[j - 1], ops[j - 1], trace[j], p, due, period);
    }
  }

  /** After an entry has run, the next step arms it again. */
  lemma RunThenArmed(trace: seq<Conf>, ops: seq<Op>, k: nat, p: Ptr, due: nat, period: nat)
    requires Run(trace, ops) && Inv(trace[0].w, trace[0].loc) && k + 1 < |ops| && Beating(trace[k], p, due, period)
    requires Fires(trace[k].w, ops[k], p) && 0 < period < BUCKETS
    ensures ops[k] == OpDrain && trace[k].w.now == due && !Fires(trace[k + 1].w, ops[k + 1], p) && Beating(trace[k + 2], p, due + period, period)
  {
    RunInv(trace, ops, k);
    RunInv(trace, ops, k + 1);
    PendingQuiet(trace[k], ops[k], p, due);
    assert Step(trace[k], ops[k], trace[k + 1]);
    assert Step(trace[k + 1], ops[k + 1], trace[k + 2]);
    HeldSettles(trace[k + 1], ops[k + 1]);
    RepeatedDue(trace[k + 1], trace[k + 2]);
  }

  /** While an entry is being fired, nothing else can be done. */
  lemma HeldSettles(c: Conf, op: Op)
    requires Inv(c.w, c.loc) && c.w.held in c.w.entry && Allowed(c.w, op)
    ensures op == OpSettle
  {
  }

  /** Every firing of `p` in the steps from `i` to `j` is at `due + n * period` for some n, each
      at a later tick than the one before. */
  ghost predicate OnBeat(trace: seq<Conf>, ops: seq<Op>, i: nat, j: nat, p: Ptr, due: nat, period: nat)
    requires j <= |ops| < |trace|
  {
    && (forall m :: i <= m < j && Fires(trace[m].w, ops[m], p) ==> Beat(trace[m].w.now, due, period))
    && forall m, m' :: i <= m < m' < j && Fires(trace[m].w, ops[m], p) && Fires(trace[m'].w, ops[m'], p) ==>
         trace[m].w.now < trace[m'].w.now
  }

  /** The ticks at which a timer first due at `due` is due. */
  function BeatAt(due: nat, period: nat, n: nat): nat { due + n * period }

  ghost predicate Beat(now: nat, due: nat, period: nat) { exists n: nat :: now == BeatAt(due, period, n) }

  lemma BeatShift(due: nat, period: nat, n: nat)
    ensures BeatAt(due + period, period, n) == BeatAt(due, period, n + 1) && BeatAt(due, period, 0) == due <= BeatAt(due, period, n)
  {
  }

  /** And each beat that the run has passed has been kept. */
  ghost predicate KeptBeat(trace: seq<Conf>, ops: seq<Op>, i: nat, j: nat, p: Ptr, tick: nat)
    requires j <= |ops| < |trace|
  {
    exists m :: i <= m < j && Fires(trace[m].w, ops[m], p) && trace[m].w.now == tick
  }

  ghost predicate AllKept(trace: seq<Conf>, ops: seq<Op>, i: nat, j: nat, p: Ptr, due: nat, period: nat)
    requires j <= |ops| < |trace|
  {
    forall n: nat :: BeatAt(due, period, n) < Base(trace[j].w) ==> KeptBeat(trace, ops, i, j, p, BeatAt(due, period, n))
  }

  lemma {:induction false} BeatOn(due: nat, period: nat, now: nat)
    requires Beat(now, due + period, period)
    ensures Beat(now, due, period) && now >= due + period
  {
    hide BeatAt;
    var n: nat :| now == BeatAt(due + period, period, n);
    BeatShift(due, period, n);
    BeatShift(due + period, period, n);
  }

  lemma {:induction false} Beats(trace: seq<Conf>, ops: seq<Op>, i: nat, j: nat, p: Ptr, due: nat, period: nat)
    requires Run(trace, ops) && Inv(trace[0].w, trace[0].loc) && i <= j < |trace| && Beating(trace[i], p, due, period) && 0 < period < BUCKETS
    ensures OnBeat(trace, ops, i, j, p, due, period)
    ensures AllKept(trace, ops, i, j, p, due, period)
    decreases j - i
  {
    hide Inv;
    hide Step;
    hide Pending;
    hide Fires;
    hide BeatAt;
    var k := PendingOrRan(trace, ops, i, j, p, due);
    if k == j {
      PendingAhead(trace[j], p, due);
      forall n: nat
        ensures BeatAt(due, period, n) >= Base(trace[j].w)
      {
        BeatShift(due, period, n);
      }
    } else {
      RunBeating(trace, ops, i, k, p, due, period);
      BeatShift(due, period, 0);
      if k + 1 == j {
        JustRan(trace, ops, k, p, due);
        forall n: nat
          ensures BeatAt(due, period, n) >= Base(trace[j].w)
        {
          BeatShift(due, period, n);
        }
      } else {
        RunThenArmed(trace, ops, k, p, due, period);
        Beats(trace, ops, k + 2, j, p, due + period, period);
        BeatsJoin(trace, ops, i, k, j, p, due, period);
      }
    }
  }

  /** A bucket is not due before the next one to be drained. */
  lemma PendingAhead(c: Conf, p: Ptr, due: nat)
    requires Pending(c, p, due)
    ensures Base(c.w) <= due
  {
  }

  lemma JustRan(trace: seq<Conf>, ops: seq<Op>, k: nat, p: Ptr, due: nat)
    requires Run(trace, ops) && Inv(trace[0].w, trace[0].loc) && k < |ops| && Pending(trace[k], p, due) && Fires(trace[k].w, ops[k], p)
    ensures Base(trace[k + 1].w) == due
  {
    RunInv(trace, ops, k);
    PendingQuiet(trace[k], ops[k], p, due);
    assert Step(trace[k], ops[k], trace[k + 1]);
  }

  lemma BeatsJoin(trace: seq<Conf>, ops: seq<Op>, i: nat, k: nat, j: nat, p: Ptr, due: nat, period: nat)
    requires |trace| == |ops| + 1 && i <= k && k + 2 <= j <= |ops| && 0 < period && RanAt(trace, ops, i, k, p, due)
    requires !Fires(trace[k + 1].w, ops[k + 1], p) && OnBeat(trace, ops, k + 2, j, p, due + period, period)
    requires AllKept(trace, ops, k + 2, j, p, due + period, period)
    ensures OnBeat(trace, ops, i, j, p, due, period)
    ensures AllKept(trace, ops, i, j, p, due, period)
  {
    hide Fires;
    hide BeatAt;
    BeatShift(due, period, 0);
    assert Beat(due, due, period);
    forall m | k + 2 <= m < j && Fires(trace[m].w, ops[m], p)
      ensures Beat(trace[m].w.now, due, period) && trace[m].w.now > due
    {
      BeatOn(due, period, trace[m].w.now);
    }
    forall m | i <= m < j && Fires(trace[m].w, ops[m], p)
      ensures m == k || k + 2 <= m
    {
    }
    forall n: nat | BeatAt(due, period, n) < Base(trace[j].w)
      ensures KeptBeat(trace, ops, i, j, p, BeatAt(due, period, n))
    {
      if n > 0 {
        BeatShift(due, period, n - 1);
        var m :| k + 2 <= m < j && Fires(trace[m].w, ops[m], p) && trace[m].w.now == BeatAt(due, period, n);
      }
    }
  }

  /** In every run a timer created between ticks with delay and period of 1 to 255 runs exactly
      at ticks `now + delay + 1 + n * period`, at each of them that the run has passed. */
  lemma PeriodicExact(trace: seq<Conf>, ops: seq<Op>, i: nat, j: nat, delay: nat, period: nat)
    requires Run(trace, ops) && Inv(trace[0].w, trace[0].loc) && i < j < |trace| && 0 < delay < BUCKETS && 0 < period < BUCKETS
    requires ops[i] == OpCreate(trace[i].w.now + delay, period)
    ensures trace[i].w.free != []
    ensures OnBeat(trace, ops, i + 1, j, trace[i].w.free[0], trace[i].w.now + delay + 1, period)
    ensures AllKept(trace, ops, i + 1, j, trace[i].w.free[0], trace[i].w.now + delay + 1, period)
  {
    RunInv(trace, ops, i);
    assert Step(trace[i], ops[i], trace[i + 1]);
    CreatedDue(trace[i], delay, period, trace[i + 1]);
    hide Inv;
    Beats(trace, ops, i + 1, j, trace[i].w.free[0], trace[i].w.now + delay + 1, period);
  }

  /** A one-shot timer with a delay of 1 to 255 runs first at tick `now + delay + 1`. */
  lemma OneShotExact(trace: seq<Conf>, ops: seq<Op>, i: nat, j: nat, delay: nat)
    requires Run(trace, ops) && Inv(trace[0].w, trace[0].loc) && i < j < |trace| && 0 < delay < BUCKETS
    requires ops[i] == OpCreate(trace[i].w.now + delay, 0) && trace[i].w.now + delay + 1 < Base(trace[j].w)
    ensures trace[i].w.free != []
    ensures HasRun(trace, ops, i + 1, j, trace[i].w.free[0], trace[i].w.now + delay + 1)
  {
    RunInv(trace, ops, i);
    assert Step(trace[i], ops[i], trace[i + 1]);
    CreatedDue(trace[i], delay, 0, trace[i + 1]);
    RunsExactlyThen(trace, ops, i + 1, j, trace[i].w.free[0], trace[i].w.now + delay + 1);
  }
}
