/** Cascading need not end. A tick hangs exactly if an entry of the bucket being cascaded is filed
    back into that bucket; which timers do that can be told when they are created. */
module WheelHang {
  import opened Wheel
  import opened WheelRuns

  // ----- the loop -----

  /** Armed again, the entry goes into bucket `slot` of level 1. */
  predicate BadPeriod(e: Entry, slot: nat) { BUCKETS <= e.period && Slot1(e.period) == slot }

  /** Cascaded at tick `now` from bucket `slot`, the entry comes back to it. */
  predicate Returns(e: Entry, now: nat, slot: nat) {
    var r := Remaining(e.deadline, now);
    (BUCKETS <= r && Slot1(r) == slot) || (r == 0 && BadPeriod(e, slot))
  }

  /** Entry `p` keeps, or will keep, the bucket under the level-1 cursor from getting empty. */
  ghost predicate DoomedBy(w: State, p: Ptr) {
    && p in w.entry && w.l1cursor < |w.level1| && w.cursor < |w.level0|
    && ((p in w.level1[w.l1cursor] && Returns(w.entry[p], w.now, w.l1cursor))
        || (w.phase == Draining && p in w.level0[w.cursor] && BadPeriod(w.entry[p], w.l1cursor))
        || (p == w.held && BadPeriod(w.entry[p], w.l1cursor)))
  }

  ghost predicate Wrapping(w: State) { w.phase == Cascading || (w.phase == Draining && w.cursor + 1 == BUCKETS) }

  /** The tick under way will never end. */
  ghost predicate Doomed(w: State) { Wrapping(w) && exists p :: DoomedBy(w, p) }

  ghost predicate Clear(w: State) { forall p :: !DoomedBy(w, p) }

  lemma StepDoomed(c: Conf, op: Op, c': Conf)
    requires Inv(c.w, c.loc) && Step(c, op, c') && Doomed(c.w)
    ensures Doomed(c'.w) && c'.w.now == c.w.now
  {
    Sizes(c);
    var p :| DoomedBy(c.w, p);
    match op
    case OpDrain => DrainDoomed(c, p);
    case OpSettle => SettleDoomed(c, p);
    case OpCascade => CascadeDoomed(c, p);
    case OpDrained => DrainedDoomed(c, p);
    case OpCascaded => CascadedNot(c, p);
    case OpCreate(_, _) =>
    case OpTick =>
  }

  lemma Sizes(c: Conf)
    requires Inv(c.w, c.loc)
    ensures |c.w.level0| == BUCKETS && |c.w.level1| == BUCKETS && c.w.cursor < BUCKETS && c.w.l1cursor < BUCKETS
    ensures c.w.entry.Keys == c.loc.Keys && NONE !in c.w.entry
  {
  }

  /** An entry being fired is in no bucket. */
  lemma HeldNowhere(c: Conf, s: nat)
    requires Inv(c.w, c.loc) && c.w.held in c.w.entry && s < BUCKETS
    ensures c.w.held !in c.w.level0[s] && c.w.held !in c.w.level1[s]
  {
    assert BucketOk(c.w.level0[s], c.loc, In0(s)) && BucketOk(c.w.level1[s], c.loc, In1(s));
  }

  lemma TailOr(b: seq<Ptr>, p: Ptr)
    requires b != []
    ensures p in b <==> p == b[0] || p in b[1..]
  {
  }

  lemma DrainDoomed(c: Conf, p: Ptr)
    requires Inv(c.w, c.loc) && Allowed(c.w, OpDrain) && Wrapping(c.w) && DoomedBy(c.w, p)
    ensures Doomed(Drain(c.w))
  {
    Sizes(c);
    TailOr(c.w.level0[c.w.cursor], p);
    assert DoomedBy(Drain(c.w), p);
  }

  lemma SettleDoomed(c: Conf, p: Ptr)
    requires Inv(c.w, c.loc) && Allowed(c.w, OpSettle) && Wrapping(c.w) && DoomedBy(c.w, p)
    ensures Doomed(Settle(c.w))
  {
    Sizes(c);
    HeldNowhere(c, c.w.cursor);
    HeldNowhere(c, c.w.l1cursor);
    assert DoomedBy(Settle(c.w), p);
  }

  lemma CascadeDoomed(c: Conf, p: Ptr)
    requires Inv(c.w, c.loc) && Allowed(c.w, OpCascade) && DoomedBy(c.w, p)
    ensures Doomed(Cascade(c.w))
  {
    Sizes(c);
    TailOr(c.w.level1[c.w.l1cursor], p);
    assert DoomedBy(Cascade(c.w), p);
  }

  lemma DrainedDoomed(c: Conf, p: Ptr)
    requires Inv(c.w, c.loc) && Allowed(c.w, OpDrained) && Wrapping(c.w) && DoomedBy(c.w, p)
    ensures Doomed(Drained(c.w))
  {
    Sizes(c);
    assert DoomedBy(Drained(c.w), p);
  }

  lemma CascadedNot(c: Conf, p: Ptr)
    requires Inv(c.w, c.loc) && DoomedBy(c.w, p) && c.w.phase == Cascading
    ensures !Allowed(c.w, OpCascaded)
  {
    Sizes(c);
  }

  /** The tick goes on for ever: no run gets out of it. */
  lemma {:induction false} NeverIdle(trace: seq<Conf>, ops: seq<Op>, n: nat)
    requires Run(trace, ops) && Inv(trace[0].w, trace[0].loc) && n < |trace| && Doomed(trace[0].w)
    ensures Doomed(trace[n].w) && trace[n].w.phase != Idle && trace[n].w.now == trace[0].w.now
  {
    hide Inv;
    hide Step;
    if n > 0 {
      NeverIdle(trace, ops, n - 1);
      RunInv(trace, ops, n - 1);
      StepDoomed(trace[n - 1], ops[n - 1], trace[n]);
    }
  }

  /** What can be checked before a tick: either the cursor does not wrap, or neither an entry of
      the level-1 bucket nor one that is about to run is filed into that bucket. */
  ghost predicate TickEnds(w: State)
    requires |w.level0| == BUCKETS && |w.level1| == BUCKETS && w.cursor < BUCKETS && w.l1cursor < BUCKETS
  {
    w.cursor + 1 == BUCKETS ==>
      && (forall p :: p in w.level1[w.l1cursor] && p in w.entry ==> !Returns(w.entry[p], w.now + 1, w.l1cursor))
      && (forall p :: p in w.level0[w.cursor] && p in w.entry ==> !BadPeriod(w.entry[p], w.l1cursor))
  }

  /** A tick whose check fails hangs, and one whose check holds starts without obstacle. */
  lemma TickDoomedIff(c: Conf)
    requires Inv(c.w, c.loc) && Allowed(c.w, OpTick)
    ensures Doomed(Apply(c.w, OpTick)) <==> !TickEnds(c.w)
    ensures c.w.cursor + 1 == BUCKETS && TickEnds(c.w) ==> Clear(Apply(c.w, OpTick))
  {
    Sizes(c);
    var w' := Apply(c.w, OpTick);
    if c.w.cursor + 1 == BUCKETS {
      forall p
        ensures DoomedBy(w', p) <==>
                && p in c.w.entry
                && ((p in c.w.level1[c.w.l1cursor] && Returns(c.w.entry[p], c.w.now + 1, c.w.l1cursor))
                    || (p in c.w.level0[c.w.cursor] && BadPeriod(c.w.entry[p], c.w.l1cursor)))
      {
      }
    }
  }

  // ----- without an obstacle every step of the tick keeps it so -----

  lemma DrainClear(c: Conf)
    requires Inv(c.w, c.loc) && Allowed(c.w, OpDrain) && Clear(c.w)
    ensures Clear(Drain(c.w))
  {
    Sizes(c);
    var b := c.w.level0[c.w.cursor];
    assert b[0] in b;
    assert !DoomedBy(c.w, b[0]);
    DueNow(c.w, c.loc, b[0]);
    forall p
      ensures !DoomedBy(Drain(c.w), p)
    {
      assert !DoomedBy(c.w, p);
      TailOr(b, p);
    }
  }

  lemma SettleClear(c: Conf)
    requires Inv(c.w, c.loc) && Allowed(c.w, OpSettle) && Clear(c.w)
    ensures Clear(Settle(c.w))
    ensures c.w.phase == Cascading ==> Settle(c.w).level1[c.w.l1cursor] == c.w.level1[c.w.l1cursor]
  {
    Sizes(c);
    HeldNowhere(c, c.w.cursor);
    HeldNowhere(c, c.w.l1cursor);
    assert !DoomedBy(c.w, c.w.held);
    SettleElsewhere(c);
    forall p
      ensures !DoomedBy(Settle(c.w), p)
    {
      assert !DoomedBy(c.w, p);
    }
  }

  /** An entry armed again while its bucket is drained goes into another bucket. */
  lemma SettleElsewhere(c: Conf)
    requires Allowed(c.w, OpSettle)
    ensures Settle(c.w).level0[c.w.cursor] == c.w.level0[c.w.cursor]
  {
  }

  lemma DrainedClear(c: Conf)
    requires Inv(c.w, c.loc) && Allowed(c.w, OpDrained) && c.w.cursor + 1 == BUCKETS && Clear(c.w)
    ensures Clear(Drained(c.w))
  {
    Sizes(c);
    forall p
      ensures !DoomedBy(Drained(c.w), p)
    {
      assert !DoomedBy(c.w, p);
    }
  }

  /** Each entry taken out of the bucket stays out. */
  lemma CascadeClear(c: Conf)
    requires Inv(c.w, c.loc) && Allowed(c.w, OpCascade) && Clear(c.w)
    ensures Clear(Cascade(c.w)) && Cascade(c.w).level1[c.w.l1cursor] == c.w.level1[c.w.l1cursor][1..]
  {
    Sizes(c);
    var b := c.w.level1[c.w.l1cursor];
    assert b[0] in b;
    assert !DoomedBy(c.w, b[0]);
    forall p
      ensures !DoomedBy(Cascade(c.w), p)
    {
      assert !DoomedBy(c.w, p);
      TailOr(b, p);
    }
  }

  /** At the start of a cascade the check is about the bucket alone. */
  lemma CascadeHangsIff(c: Conf)
    requires Inv(c.w, c.loc) && c.w.phase == Cascading && c.w.held == NONE
    ensures |c.w.level1| == BUCKETS && c.w.l1cursor < BUCKETS
    ensures Doomed(c.w) <==> exists p :: p in c.w.level1[c.w.l1cursor] && p in c.w.entry && Returns(c.w.entry[p], c.w.now, c.w.l1cursor)
  {
    Sizes(c);
    if exists p :: p in c.w.level1[c.w.l1cursor] && p in c.w.entry && Returns(c.w.entry[p], c.w.now, c.w.l1cursor) {
      var p :| p in c.w.level1[c.w.l1cursor] && p in c.w.entry && Returns(c.w.entry[p], c.w.now, c.w.l1cursor);
      assert DoomedBy(c.w, p);
    }
  }

  // ----- when level 1 is cascaded -----

  /** The tick that cascades the bucket under the level-1 cursor. */
  function Wrap(w: State): nat
    requires w.cursor < BUCKETS
  {
    match w.phase
    case Idle => w.now + BUCKETS - w.cursor
    case Draining => w.now + BUCKETS - 1 - w.cursor
    case Cascading => w.now
  }

  /** How many wraps later bucket `slot` has its turn. */
  function Laps(l1cursor: nat, slot: nat): nat
    requires l1cursor < BUCKETS && slot < BUCKETS
  {
    if l1cursor <= slot then slot - l1cursor else slot + BUCKETS - l1cursor
  }

  /** The tick that next cascades bucket `slot` of level 1. */
  function Visit(w: State, slot: nat): nat
    requires w.cursor < BUCKETS && w.l1cursor < BUCKETS && slot < BUCKETS
  {
    Wrap(w) + BUCKETS * Laps(w.l1cursor, slot)
  }

  /** The turn of a bucket stays the same until it comes. */
  lemma VisitStays(c: Conf, op: Op, c': Conf, slot: nat)
    requires Inv(c.w, c.loc) && Step(c, op, c') && slot < BUCKETS && !(op == OpCascaded && slot == c.w.l1cursor)
    ensures c'.w.cursor < BUCKETS && c'.w.l1cursor < BUCKETS && Visit(c'.w, slot) == Visit(c.w, slot)
  {
    hide Filed;
  }

  // ----- what a caller can check -----

  /** How long it is to the tick that cascades the bucket under the level-1 cursor. */
  function Wait(w: State): nat
    requires w.cursor < BUCKETS
  {
    Wrap(w) - w.now
  }

  /** A timer with `d` ticks to go is filed into the very bucket whose turn is next, and still has
      as many rounds to go when the turn comes. */
  predicate Harmful(w: State, d: nat)
    requires w.cursor < BUCKETS
  {
    BUCKETS <= d < SPAN && d / BUCKETS - 1 == w.l1cursor && d % BUCKETS >= Wait(w)
  }

  /** The distance at which a step arms a timer, or 0. */
  ghost function ArmedAt(w: State, op: Op): nat {
    match op
    case OpCreate(deadline, period) =>
      var d := Remaining(deadline, w.now);
      if d < SPAN then d else period
    case OpSettle => if w.held in w.entry then w.entry[w.held].period else 0
    case _ => 0
  }

  /** The entry that a step arms. */
  function Armed(w: State, op: Op): Ptr {
    if op.OpCreate? && w.free != [] then w.free[0] else w.held
  }

  /** The entry is bound to come back to its bucket when that is cascaded. */
  ghost predicate Bound(c: Conf, p: Ptr, visit: nat) {
    && c.w.cursor < BUCKETS && c.w.l1cursor < BUCKETS
    && p in c.loc && p in c.w.entry && c.loc[p].In1? && c.loc[p].slot < BUCKETS && Visit(c.w, c.loc[p].slot) == visit
    && var r := Remaining(c.w.entry[p].deadline, visit); BUCKETS <= r && Slot1(r) == c.loc[p].slot
  }

  lemma HarmfulBound(c: Conf, op: Op, c': Conf)
    requires Inv(c.w, c.loc) && Step(c, op, c') && Harmful(c.w, ArmedAt(c.w, op))
    ensures Bound(c', Armed(c.w, op), Wrap(c.w))
  {
    Sizes(c);
    hide Filed;
    var d := ArmedAt(c.w, op);
    assert c'.loc[Armed(c.w, op)] == In1(Slot1(d));
    RoundsLeft(c.w, d);
  }

  lemma RoundsLeft(w: State, d: nat)
    requires w.cursor < BUCKETS && Harmful(w, d)
    ensures Slot1(d) == w.l1cursor && BUCKETS <= d - Wait(w) && Slot1(d - Wait(w)) == w.l1cursor
  {
  }

  lemma BoundStays(c: Conf, op: Op, c': Conf, p: Ptr, visit: nat)
    requires Inv(c.w, c.loc) && Step(c, op, c') && Bound(c, p, visit)
    ensures Bound(c', p, visit) || Doomed(c.w)
  {
    Sizes(c);
    BoundInBucket(c, p, visit);
    if !Doomed(c.w) {
      if op == OpCascade {
        TakeLevel1(c.w, c.loc);
      }
      Untouched(c, op, c', p);
      VisitStays(c, op, c', c.loc[p].slot);
    }
  }

  /** When its turn has come, such an entry is what dooms the tick. */
  lemma BoundInBucket(c: Conf, p: Ptr, visit: nat)
    requires Inv(c.w, c.loc) && Bound(c, p, visit)
    ensures c.w.phase == Cascading && c.loc[p].slot == c.w.l1cursor ==> Doomed(c.w)
    ensures c.w.phase == Idle ==> c.w.now < visit
  {
    Sizes(c);
    if c.w.phase == Cascading && c.loc[p].slot == c.w.l1cursor {
      assert BucketOk(c.w.level1[c.w.l1cursor], c.loc, In1(c.w.l1cursor));
      assert p in c.w.level1[c.w.l1cursor];
      assert DoomedBy(c.w, p);
    }
  }

  lemma {:induction false} RunBound(trace: seq<Conf>, ops: seq<Op>, n: nat, p: Ptr, visit: nat)
    requires Run(trace, ops) && Inv(trace[0].w, trace[0].loc) && n < |trace| && Bound(trace[0], p, visit)
    ensures Bound(trace[n], p, visit) || Doomed(trace[n].w)
  {
    hide Inv;
    hide Step;
    hide Bound;
    hide Doomed;
    if n > 0 {
      RunBound(trace, ops, n - 1, p, visit);
      RunInv(trace, ops, n - 1);
      if Doomed(trace[n - 1].w) {
        StepDoomed(trace[n - 1], ops[n - 1], trace[n]);
      } else {
        BoundStays(trace[n - 1], ops[n - 1], trace[n], p, visit);
      }
    }
  }

  /** After a timer has been armed harmfully, by its creation or after its callback, no run
      completes the tick in which the cursor next wraps. */
  lemma HarmfulHangs(trace: seq<Conf>, ops: seq<Op>, i: nat, j: nat)
    requires Run(trace, ops) && Inv(trace[0].w, trace[0].loc) && i < j < |trace| && trace[i].w.cursor < BUCKETS
    requires Harmful(trace[i].w, ArmedAt(trace[i].w, ops[i]))
    ensures trace[j].w.phase == Idle ==> trace[j].w.now < Wrap(trace[i].w)
  {
    hide Inv;
    hide Harmful;
    hide Bound;
    hide Wrap;
    RunInv(trace, ops, i);
    RunInv(trace, ops, i + 1);
    assert Step(trace[i], ops[i], trace[i + 1]);
    HarmfulBound(trace[i], ops[i], trace[i + 1]);
    hide Step;
    RunFrom(trace, ops, i + 1);
    BoundHangs(trace[i + 1..], ops[i + 1..], j - (i + 1), Armed(trace[i].w, ops[i]), Wrap(trace[i].w));
  }

  lemma BoundHangs(trace: seq<Conf>, ops: seq<Op>, n: nat, p: Ptr, visit: nat)
    requires Run(trace, ops) && Inv(trace[0].w, trace[0].loc) && n < |trace| && Bound(trace[0], p, visit)
    ensures trace[n].w.phase == Idle ==> trace[n].w.now < visit
  {
    hide Inv;
    hide Bound;
    hide Step;
    RunBound(trace, ops, n, p, visit);
    RunInv(trace, ops, n);
    if !Doomed(trace[n].w) {
      BoundInBucket(trace[n], p, visit);
    }
  }

  lemma RunFrom(trace: seq<Conf>, ops: seq<Op>, i: nat)
    requires Run(trace, ops) && i <= |ops|
    ensures Run(trace[i..], ops[i..])
  {
  }

  // ----- and otherwise it does not hang -----

  /** The entry leaves its bucket when its turn comes, and is due at the latest at the next. */
  ghost predicate Fine(w: State, e: Entry, slot: nat)
    requires w.cursor < BUCKETS && w.l1cursor < BUCKETS && slot < BUCKETS
  {
    var r := Remaining(e.deadline, Visit(w, slot));
    r < BUCKETS || (Slot1(r) != slot && e.deadline <= Visit(w, slot) + BUCKETS * Laps(slot, Slot1(r)))
  }

  ghost predicate Calm(c: Conf) {
    && c.w.cursor < BUCKETS && c.w.l1cursor < BUCKETS
    && (forall p :: p in c.loc && p in c.w.entry && c.loc[p].In1? ==>
          c.loc[p].slot < BUCKETS && Fine(c.w, c.w.entry[p], c.loc[p].slot))
  }

  lemma FreshCalm(c: Conf)
    requires Fresh(c.w, c.loc)
    ensures Calm(c)
  {
  }

  lemma HarmlessFine(wait: nat, l1cursor: nat, d: nat)
    requires wait <= BUCKETS && l1cursor < BUCKETS && BUCKETS <= d < SPAN
    requires !(d / BUCKETS - 1 == l1cursor && d % BUCKETS >= wait)
    ensures var slot := Slot1(d); var turn := wait + BUCKETS * Laps(l1cursor, slot);
            var r := Remaining(d, turn);
            r < BUCKETS || (Slot1(r) != slot && d <= turn + BUCKETS * Laps(slot, Slot1(r)))
  {
    var slot, rest := Slot1(d), d % BUCKETS;
    assert d == BUCKETS * (slot + 1) + rest && slot + 2 <= BUCKETS;
    var r := Remaining(d, wait + BUCKETS * Laps(l1cursor, slot));
    if l1cursor <= slot {
      assert r == Remaining(BUCKETS * (l1cursor + 1) + rest, wait);
      if BUCKETS <= r {
        assert Slot1(r) == if rest < wait then l1cursor - 1 else l1cursor;
      }
    }
  }

  /** A step that does not handle the entry leaves it alone. */
  lemma Untouched(c: Conf, op: Op, c': Conf, p: Ptr)
    requires Inv(c.w, c.loc) && Step(c, op, c') && p in c.loc && c.loc[p].In1?
    requires op == OpCascade ==> c.w.level1[c.w.l1cursor][0] != p
    ensures p in c'.loc && c'.loc[p] == c.loc[p] && p in c.w.entry && p in c'.w.entry && c'.w.entry[p] == c.w.entry[p]
    ensures !(op == OpCascaded && c.loc[p].slot == c.w.l1cursor)
  {
    Sizes(c);
    match op
    case OpCreate(_, _) => TakeFree(c.w, c.loc);
    case OpDrain => DueNow(c.w, c.loc, c.w.level0[c.w.cursor][0]);
    case OpSettle => HeldInHand(c);
    case OpCascade =>
    case OpTick =>
    case OpDrained =>
    case OpCascaded =>
      assert BucketOk(c.w.level1[c.w.l1cursor], c.loc, In1(c.w.l1cursor));
      assert p !in c.w.level1[c.w.l1cursor];
  }

  /** The step arms no timer harmfully. */
  ghost predicate Harmless(w: State, op: Op) { w.cursor < BUCKETS && !Harmful(w, ArmedAt(w, op)) }

  /** Which entry a step can put into level 1. */
  function Handled(w: State, op: Op): Ptr {
    if op.OpCreate? && w.free != [] then w.free[0]
    else if op == OpCascade && w.l1cursor < |w.level1| && w.level1[w.l1cursor] != [] then w.level1[w.l1cursor][0]
    else w.held
  }

  lemma OnlyHandled(c: Conf, op: Op, c': Conf, p: Ptr)
    requires Inv(c.w, c.loc) && Step(c, op, c') && p in c'.loc && c'.loc[p].In1? && p != Handled(c.w, op)
    ensures p in c.loc && c.loc[p] == c'.loc[p]
  {
  }

  lemma StepCalm(c: Conf, op: Op, c': Conf)
    requires Inv(c.w, c.loc) && Step(c, op, c') && Calm(c) && Harmless(c.w, op)
    ensures Calm(c')
  {
    StepInv(c, op, c');
    Sizes(c);
    Sizes(c');
    forall p | p in c'.loc && p in c'.w.entry && c'.loc[p].In1?
      ensures c'.loc[p].slot < BUCKETS && Fine(c'.w, c'.w.entry[p], c'.loc[p].slot)
    {
      if p == Handled(c.w, op) {
        HandledFine(c, op, c', p);
      } else {
        OnlyHandled(c, op, c', p);
        Untouched(c, op, c', p);
        VisitStays(c, op, c', c.loc[p].slot);
      }
    }
  }

  lemma HandledFine(c: Conf, op: Op, c': Conf, p: Ptr)
    requires Inv(c.w, c.loc) && Inv(c'.w, c'.loc) && Step(c, op, c') && Calm(c) && Harmless(c.w, op) && p == Handled(c.w, op)
    requires p in c'.loc && p in c'.w.entry && c'.loc[p].In1?
    ensures c'.loc[p].slot < BUCKETS && Fine(c'.w, c'.w.entry[p], c'.loc[p].slot)
  {
    hide Filed;
    Sizes(c);
    if op.OpCreate? || op == OpSettle {
      ArmedFine(c, op, c');
    } else if op == OpCascade {
      CascadedFine(c, c');
    } else {
      HeldPlace(c);
    }
  }

  /** A timer armed into level 1 is there for the distance at which it was armed. */
  lemma ArmedPlace(c: Conf, op: Op, c': Conf)
    requires Inv(c.w, c.loc) && Step(c, op, c') && (op.OpCreate? || op == OpSettle)
    requires var p := Armed(c.w, op); p in c'.loc && p in c'.w.entry && c'.loc[p].In1?
    ensures var p, d := Armed(c.w, op), ArmedAt(c.w, op);
            && BUCKETS <= d < SPAN && c'.loc[p] == In1(Slot1(d)) && c'.w.entry[p].deadline == c.w.now + d
            && c'.w.cursor == c.w.cursor && c'.w.l1cursor == c.w.l1cursor && c'.w.now == c.w.now && c'.w.phase == c.w.phase
  {
    Sizes(c);
    hide Filed;
  }

  lemma ArmedFine(c: Conf, op: Op, c': Conf)
    requires Inv(c.w, c.loc) && Step(c, op, c') && Harmless(c.w, op) && (op.OpCreate? || op == OpSettle)
    requires var p := Armed(c.w, op); p in c'.loc && p in c'.w.entry && c'.loc[p].In1?
    ensures var p := Armed(c.w, op);
            && c'.w.cursor < BUCKETS && c'.w.l1cursor < BUCKETS
            && c'.loc[p].slot < BUCKETS && Fine(c'.w, c'.w.entry[p], c'.loc[p].slot)
  {
    Sizes(c);
    ArmedPlace(c, op, c');
    hide Inv;
    hide Step;
    hide ArmedAt;
    HarmlessFine(Wait(c.w), c.w.l1cursor, ArmedAt(c.w, op));
  }

  lemma CascadedFine(c: Conf, c': Conf)
    requires Inv(c.w, c.loc) && Step(c, OpCascade, c') && Calm(c)
    requires var p := c.w.level1[c.w.l1cursor][0]; BUCKETS <= Remaining(c.w.entry[p].deadline, c.w.now)
    ensures var p := c.w.level1[c.w.l1cursor][0]; var slot := Slot1(Remaining(c.w.entry[p].deadline, c.w.now));
            && c'.w.cursor < BUCKETS && c'.w.l1cursor < BUCKETS && slot < BUCKETS && c'.loc[p] == In1(slot)
            && p in c'.w.entry && Fine(c'.w, c'.w.entry[p], slot)
  {
    TakeLevel1(c.w, c.loc);
    hide Filed;
    assert Fine(c.w, c.w.entry[c.w.level1[c.w.l1cursor][0]], c.w.l1cursor);
  }

  lemma HeldPlace(c: Conf)
    requires Inv(c.w, c.loc)
    ensures c.w.held in c.loc ==> c.loc[c.w.held] == InHand
  {
  }

  /** A timer that runs in the tick under way will be armed again into the bucket being cascaded. */
  ghost predicate RunsBad(w: State) {
    && Wrapping(w)
    && exists p :: p in w.entry && RunsNow(w, p) && BadPeriod(w.entry[p], w.l1cursor)
  }

  /** Entry `p` runs in this tick or is just being run. */
  ghost predicate RunsNow(w: State, p: Ptr) {
    || p == w.held
    || (w.phase == Draining && w.cursor < |w.level0| && p in w.level0[w.cursor])
    || (p in w.entry && w.l1cursor < |w.level1| && p in w.level1[w.l1cursor] && Remaining(w.entry[p].deadline, w.now) == 0)
  }

  /** As long as no timer has been armed harmfully, a tick hangs exactly if a timer that runs in
      it is about to be. */
  lemma {:induction false} HarmlessHangsIff(trace: seq<Conf>, ops: seq<Op>, n: nat)
    requires Run(trace, ops) && Inv(trace[0].w, trace[0].loc) && Calm(trace[0]) && n < |trace|
    requires forall i :: 0 <= i < n ==> Harmless(trace[i].w, ops[i])
    ensures Inv(trace[n].w, trace[n].loc) && Calm(trace[n]) && (Doomed(trace[n].w) <==> RunsBad(trace[n].w))
  {
    hide Inv;
    hide Step;
    hide Calm;
    hide Harmless;
    RunInv(trace, ops, n);
    if n > 0 {
      HarmlessHangsIff(trace, ops, n - 1);
      RunInv(trace, ops, n - 1);
      StepCalm(trace[n - 1], ops[n - 1], trace[n]);
    }
    CalmDoomedIff(trace[n]);
  }

  lemma CalmDoomedIff(c: Conf)
    requires Inv(c.w, c.loc) && Calm(c)
    ensures Doomed(c.w) <==> RunsBad(c.w)
  {
    Sizes(c);
    forall p | p in c.w.level1[c.w.l1cursor]
      ensures p in c.loc && p in c.w.entry && Fine(c.w, c.w.entry[p], c.w.l1cursor)
    {
      assert BucketOk(c.w.level1[c.w.l1cursor], c.loc, In1(c.w.l1cursor));
    }
    if Wrapping(c.w) {
      forall p
        ensures DoomedBy(c.w, p) <==> p in c.w.entry && RunsNow(c.w, p) && BadPeriod(c.w.entry[p], c.w.l1cursor)
      {
      }
    }
  }

  /** If every period is below 256 and no timer is created harmfully, no tick ever hangs. */
  lemma {:induction false} HarmlessNeverHangs(trace: seq<Conf>, ops: seq<Op>, n: nat)
    requires Run(trace, ops) && Fresh(trace[0].w, trace[0].loc) && n < |trace|
    requires forall i :: 0 <= i < n && ops[i].OpCreate? ==> ops[i].period < BUCKETS && Harmless(trace[i].w, ops[i])
    ensures !Doomed(trace[n].w)
  {
    hide Inv;
    hide Step;
    hide Harmless;
    FreshInv(trace[0].w, trace[0].loc);
    FreshCalm(trace[0]);
    forall i | 0 <= i < n
      ensures Harmless(trace[i].w, ops[i])
    {
      RunInv(trace, ops, i);
      ShortPeriods(trace, ops, i);
      OnlyCreation(trace[i], ops[i]);
    }
    HarmlessHangsIff(trace, ops, n);
    ShortPeriods(trace, ops, n);
  }

  lemma OnlyCreation(c: Conf, op: Op)
    requires Inv(c.w, c.loc) && (forall p :: p in c.w.entry ==> c.w.entry[p].period < BUCKETS) && (op.OpCreate? ==> Harmless(c.w, op))
    ensures Harmless(c.w, op)
  {
    Sizes(c);
  }

  lemma {:induction false} ShortPeriods(trace: seq<Conf>, ops: seq<Op>, n: nat)
    requires Run(trace, ops) && Fresh(trace[0].w, trace[0].loc) && n < |trace|
    requires forall i :: 0 <= i < n && ops[i].OpCreate? ==> ops[i].period < BUCKETS
    ensures forall p :: p in trace[n].w.entry ==> trace[n].w.entry[p].period < BUCKETS
  {
    if n > 0 {
      ShortPeriods(trace, ops, n - 1);
      assert Step(trace[n - 1], ops[n - 1], trace[n]);
      hide Fresh;
      PeriodsStay(trace[n - 1], ops[n - 1], trace[n]);
    }
  }

  lemma PeriodsStay(c: Conf, op: Op, c': Conf)
    requires Step(c, op, c') && (op.OpCreate? ==> op.period < BUCKETS) && forall p :: p in c.w.entry ==> c.w.entry[p].period < BUCKETS
    ensures forall p :: p in c'.w.entry ==> c'.w.entry[p].period < BUCKETS
  {
  }

  // ----- the same by the clock -----

  /** Where the cursors stand, by the number of ticks since the wheel was set up. */
  predicate OnClock(w: State) {
    match w.phase
    case Idle => w.cursor == w.now % BUCKETS && w.l1cursor == w.now / BUCKETS % BUCKETS
    case Draining => w.now > 0 && w.cursor == (w.now - 1) % BUCKETS && w.l1cursor == (w.now - 1) / BUCKETS % BUCKETS
    case Cascading => w.now > 0 && w.now % BUCKETS == 0 && w.cursor == 0 && w.l1cursor == (w.now - 1) / BUCKETS % BUCKETS
  }

  lemma StepClock(w: State, op: Op)
    requires Allowed(w, op) && OnClock(w)
    ensures OnClock(Apply(w, op))
  {
  }

  lemma {:induction false} RunClock(trace: seq<Conf>, ops: seq<Op>, n: nat)
    requires Run(trace, ops) && Fresh(trace[0].w, trace[0].loc) && n < |trace|
    ensures OnClock(trace[n].w) && trace[n].w.cursor < BUCKETS
  {
    if n > 0 {
      RunClock(trace, ops, n - 1);
      assert Step(trace[n - 1], ops[n - 1], trace[n]);
      hide OnClock;
      hide Apply;
      hide Fresh;
      StepClock(trace[n - 1].w, ops[n - 1]);
    }
  }

  /** The last tick that has been started when a timer is armed, not counting the one in which it
      runs: what matters for the bucket it goes to. */
  function Ticks(w: State): nat { if w.phase == Idle || w.now == 0 then w.now else w.now - 1 }

  /** Which timers are armed harmfully between ticks and while a bucket is drained, by the clock
      alone: bucket and round must be those of the moment, and the rest must reach past the wrap. */
  lemma HarmfulByClock(w: State, d: nat)
    requires OnClock(w) && w.cursor < BUCKETS && BUCKETS <= d < SPAN && w.phase != Cascading
    ensures Harmful(w, d) <==>
              && d / BUCKETS - 1 == Ticks(w) / BUCKETS % BUCKETS
              && d % BUCKETS + Ticks(w) % BUCKETS >= if w.phase == Idle then BUCKETS else BUCKETS - 1
  {
  }

  /** What a caller can check when it makes a periodic timer with a delay of 1 to 255: if its
      first callback will arm it harmfully, the wheel hangs at the next wrap after that tick. */
  lemma PeriodHangs(trace: seq<Conf>, ops: seq<Op>, i: nat, j: nat, delay: nat, period: nat)
    requires Run(trace, ops) && Fresh(trace[0].w, trace[0].loc) && i < j < |trace| && 0 < delay < BUCKETS <= period < SPAN
    requires ops[i] == OpCreate(trace[i].w.now + delay, period)
    requires var t := trace[i].w.now + delay;
             period / BUCKETS - 1 == t / BUCKETS % BUCKETS && period % BUCKETS + t % BUCKETS >= BUCKETS - 1
    ensures trace[j].w.phase == Idle ==> trace[j].w.now < (trace[i].w.now + delay) / BUCKETS * BUCKETS + BUCKETS
  {
    var t := trace[i].w.now + delay;
    if trace[j].w.phase == Idle && t / BUCKETS * BUCKETS + BUCKETS <= trace[j].w.now {
      FreshInv(trace[0].w, trace[0].loc);
      hide Fresh;
      hide Inv;
      var k := FirstRun(trace, ops, i, j, delay, period);
      RunClock(trace, ops, k + 1);
      HarmfulByClock(trace[k + 1].w, period);
      WrapByClock(trace[k + 1].w);
      HarmfulHangs(trace, ops, k + 1, j);
    }
  }

  lemma WrapByClock(w: State)
    requires OnClock(w) && w.cursor < BUCKETS && w.phase == Draining
    ensures Wrap(w) == (w.now - 1) / BUCKETS * BUCKETS + BUCKETS
  {
  }

  /** The step after the first callback of a timer arms it again. */
  lemma FirstRun(trace: seq<Conf>, ops: seq<Op>, i: nat, j: nat, delay: nat, period: nat) returns (k: nat)
    requires Run(trace, ops) && Inv(trace[0].w, trace[0].loc) && i < j < |trace| && 0 < delay < BUCKETS
    requires ops[i] == OpCreate(trace[i].w.now + delay, period)
    requires trace[j].w.phase == Idle && trace[i].w.now + delay + 1 <= trace[j].w.now
    ensures i < k && k + 1 < j && ops[k + 1] == OpSettle
    ensures var w := trace[k + 1].w; w.phase == Draining && w.now == trace[i].w.now + delay + 1 && ArmedAt(w, OpSettle) == period
  {
    RunInv(trace, ops, i);
    assert Step(trace[i], ops[i], trace[i + 1]);
    var p, due := trace[i].w.free[0], trace[i].w.now + delay + 1;
    CreatedDue(trace[i], delay, period, trace[i + 1]);
    assert Beating(trace[i + 1], p, due, period) by {
      TakeFree(trace[i].w, trace[i].loc);
    }
    hide Inv;
    hide Step;
    hide Pending;
    k := PendingOrRan(trace, ops, i + 1, j, p, due);
    if k == j {
      PendingLater(trace[j], p, due);
      assert false;
    }
    RunBeating(trace, ops, i + 1, k, p, due, period);
    RanThenSettles(trace, ops, k, j, p, due, period);
  }

  lemma PendingLater(c: Conf, p: Ptr, due: nat)
    requires Pending(c, p, due) && c.w.phase == Idle
    ensures c.w.now < due
  {
    PendingAhead(c, p, due);
  }

  lemma RanThenSettles(trace: seq<Conf>, ops: seq<Op>, k: nat, j: nat, p: Ptr, due: nat, period: nat)
    requires Run(trace, ops) && Inv(trace[0].w, trace[0].loc) && k < j < |trace| && Beating(trace[k], p, due, period)
    requires Fires(trace[k].w, ops[k], p) && trace[j].w.phase == Idle
    ensures k + 1 < j && ops[k + 1] == OpSettle
    ensures var w := trace[k + 1].w; w.phase == Draining && w.now == due && ArmedAt(w, OpSettle) == period
  {
    RunInv(trace, ops, k);
    RunInv(trace, ops, k + 1);
    PendingQuiet(trace[k], ops[k], p, due);
    assert Step(trace[k], ops[k], trace[k + 1]);
    assert k + 1 < j;
    assert Step(trace[k + 1], ops[k + 1], trace[k + 2]);
    HeldSettles(trace[k + 1], ops[k + 1]);
  }

  // ----- a run that hangs -----

  lemma RunMore(trace: seq<Conf>, ops: seq<Op>, op: Op, c': Conf)
    requires Run(trace, ops) && Step(trace[|ops|], op, c')
    ensures Run(trace + [c'], ops + [op])
  {
    forall i | 0 <= i < |ops + [op]|
      ensures Step((trace + [c'])[i], (ops + [op])[i], (trace + [c'])[i + 1])
    {
    }
  }

  /** With level 0 empty, `n` ticks only move the clock and the cursor. */
  lemma {:induction false} QuietTicks(trace: seq<Conf>, ops: seq<Op>, n: nat) returns (trace': seq<Conf>, ops': seq<Op>)
    requires Run(trace, ops) && Quiet(trace[|ops|].w) && trace[|ops|].w.cursor + n < BUCKETS
    ensures Run(trace', ops') && trace <= trace' && ops <= ops'
    ensures var c := trace[|ops|];
            trace'[|ops'|] == Conf(c.w.(now := c.w.now + n, cursor := c.w.cursor + n), c.loc)
    decreases n
  {
    trace', ops' := trace, ops;
    if n > 0 {
      trace', ops' := QuietTicks(trace, ops, n - 1);
      var c := trace'[|ops'|];
      var d := Conf(Apply(c.w, OpTick), c.loc);
      RunMore(trace', ops', OpTick, d);
      trace', ops' := trace' + [d], ops' + [OpTick];
      RunMore(trace', ops', OpDrained, Conf(Drained(d.w), d.loc));
      trace', ops' := trace' + [Conf(Drained(d.w), d.loc)], ops' + [OpDrained];
    }
  }

  ghost predicate Quiet(w: State) {
    && |w.level0| == BUCKETS && |w.level1| == BUCKETS && w.l1cursor < BUCKETS && w.held == NONE && w.phase == Idle
    && forall s :: 0 <= s < BUCKETS ==> w.level0[s] == []
  }

  /** From a fresh wheel: one tick, then a one-shot timer 511 ticks ahead, then nothing but ticks.
      In tick 256 cascading does not end. */
  lemma HangExample(c: Conf) returns (trace: seq<Conf>, ops: seq<Op>)
    requires Fresh(c.w, c.loc)
    ensures Run(trace, ops) && trace[0] == c && |ops| >= 3 && ops[2] == OpCreate(512, 0) && trace[2].w.now == 1
    ensures Doomed(trace[|ops|].w) && trace[|ops|].w.now == 256
  {
    FreshInv(c.w, c.loc);
    trace, ops := HarmfulStart(c);
    ghost var start := trace[3];
    trace, ops := QuietTicks(trace, ops, 254);
    var d := trace[|ops|];
    var e := Conf(Apply(d.w, OpTick), d.loc);
    RunMore(trace, ops, OpTick, e);
    trace, ops := trace + [e], ops + [OpTick];
    RunMore(trace, ops, OpDrained, Conf(Drained(e.w), e.loc));
    trace, ops := trace + [Conf(Drained(e.w), e.loc)], ops + [OpDrained];
    assert trace[3] == start;
    RunInv(trace, ops, 3);
    RunInv(trace, ops, |ops|);
    RunFrom(trace, ops, 3);
    RunBound(trace[3..], ops[3..], |ops| - 3, 1, 256);
    hide Inv;
    if !Doomed(trace[|ops|].w) {
      BoundInBucket(trace[|ops|], 1, 256);
    }
  }

  lemma HarmfulStart(c: Conf) returns (trace: seq<Conf>, ops: seq<Op>)
    requires Fresh(c.w, c.loc) && Inv(c.w, c.loc)
    ensures Run(trace, ops) && trace[0] == c && ops == [OpTick, OpDrained, OpCreate(512, 0)] && trace[2].w.now == 1
    ensures Quiet(trace[3].w) && trace[3].w.now == 1 && trace[3].w.cursor == 1 && trace[3].w.l1cursor == 0
    ensures Bound(trace[3], 1, 256) && trace[3].loc[1] == In1(0)
  {
    var c1 := Conf(Apply(c.w, OpTick), c.loc);
    var c2 := Conf(Drained(c1.w), c.loc);
    var op := OpCreate(512, 0);
    var c3 := Conf(Apply(c2.w, op), Moved(c2.w, c2.loc, op));
    trace, ops := [c, c1, c2, c3], [OpTick, OpDrained, op];
    assert Step(c, OpTick, c1) && Step(c1, OpDrained, c2) && Step(c2, op, c3);
    RunInv(trace, ops, 2);
    hide Filed;
    HarmfulBound(c2, op, c3);
  }
}
