/** The timer wheel as code: the loops that drain a bucket and cascade level 1. */
module Timers {
  import Intrusive
  import opened Wheel
  import opened WheelRuns
  import opened WheelHang

  /** The steps `ops` lead from one configuration to the other. */
  ghost predicate Leads(c: Conf, ops: seq<Op>, c': Conf)
    decreases |ops|
  {
    if ops == [] then c == c'
    else Allowed(c.w, ops[0]) && Leads(Conf(Apply(c.w, ops[0]), Moved(c.w, c.loc, ops[0])), ops[1..], c')
  }

  lemma {:induction false} LeadsOn(c: Conf, ops: seq<Op>, mid: Conf, op: Op)
    requires Leads(c, ops, mid) && Allowed(mid.w, op)
    ensures Leads(c, ops + [op], Conf(Apply(mid.w, op), Moved(mid.w, mid.loc, op)))
    decreases |ops|
  {
    if ops != [] {
      LeadsOn(Conf(Apply(c.w, ops[0]), Moved(c.w, c.loc, ops[0])), ops[1..], mid, op);
      assert (ops + [op])[1..] == ops[1..] + [op];
    }
  }

  /** A chain of steps is a run of the wheel, so all that is proved of runs holds of it. */
  lemma {:induction false} LeadsRun(c: Conf, ops: seq<Op>, c': Conf) returns (trace: seq<Conf>)
    requires Leads(c, ops, c')
    ensures Run(trace, ops) && trace[0] == c && trace[|ops|] == c'
    decreases |ops|
  {
    if ops == [] {
      trace := [c];
    } else {
      var d := Conf(Apply(c.w, ops[0]), Moved(c.w, c.loc, ops[0]));
      var rest := LeadsRun(d, ops[1..], c');
      trace := [c] + rest;
      assert Step(c, ops[0], d);
      forall i | 0 <= i < |ops|
        ensures Step(trace[i], ops[i], trace[i + 1])
      {
        if i > 0 {
          assert Step(rest[i - 1], ops[1..][i - 1], rest[i]);
        }
      }
    }
  }

  /** Calls one after the other make one longer chain. */
  lemma {:induction false} LeadsJoin(c: Conf, a: seq<Op>, d: Conf, b: seq<Op>, e: Conf)
    requires Leads(c, a, d) && Leads(d, b, e)
    ensures Leads(c, a + b, e)
    decreases |a|
  {
    if a == [] {
      assert a + b == b;
    } else {
      LeadsJoin(Conf(Apply(c.w, a[0]), Moved(c.w, c.loc, a[0])), a[1..], d, b, e);
      assert (a + b)[1..] == a[1..] + b;
    }
  }

  /** The lists of the wheel: the buckets of level 0, those of level 1 and the free entries. */
  const LEVEL1: nat := 256
  const FREE: nat := 512
  const LISTS: nat := 513

  ghost predicate Filled(lists: seq<seq<Ptr>>, level0: seq<seq<Ptr>>, level1: seq<seq<Ptr>>, free: seq<Ptr>) {
    && |lists| == LISTS && lists[..LEVEL1] == level0 && lists[LEVEL1..FREE] == level1 && lists[FREE] == free
  }

  lemma Refill(a: seq<seq<Ptr>>, i: nat, s: seq<Ptr>, level0: seq<seq<Ptr>>, level1: seq<seq<Ptr>>, free: seq<Ptr>)
    requires Filled(a, level0, level1, free) && i < LISTS
    ensures |level0| == BUCKETS && |level1| == BUCKETS
    ensures if i < LEVEL1 then a[i] == level0[i] && Filled(a[i := s], level0[i := s], level1, free)
            else if i < FREE then a[i] == level1[i - LEVEL1] && Filled(a[i := s], level0, level1[i - LEVEL1 := s], free)
            else a[i] == free && Filled(a[i := s], level0, level1, s)
  {
    var b := a[i := s];
    if i < LEVEL1 {
      assert b[..LEVEL1] == level0[i := s];
    } else if i < FREE {
      assert b[LEVEL1..FREE] == level1[i - LEVEL1 := s];
    }
    assert i >= LEVEL1 ==> b[..LEVEL1] == level0;
    assert i < LEVEL1 || i >= FREE ==> b[LEVEL1..FREE] == level1;
  }

  class TimerWheel {
    const lists: Intrusive.Buckets
    ghost var level0: seq<seq<Ptr>>
    ghost var level1: seq<seq<Ptr>>
    ghost var free: seq<Ptr>
    var entry: map<Ptr, Entry>
    var cursor: nat
    var l1cursor: nat
    var tickCount: nat
    ghost var held: Ptr
    ghost var phase: Phase
    ghost var loc: map<Ptr, Place>

    ghost function View(): Conf
      reads this
    {
      Conf(State(level0, level1, free, held, entry, cursor, l1cursor, tickCount, phase), loc)
    }

    /** The linked lists hold what the wheel says they hold. */
    ghost predicate Backed()
      reads `level0, `level1, `free, lists, lists.store
    {
      lists.Valid() && lists.count == LISTS && lists.top == POOL && Filled(lists.lists, level0, level1, free)
    }

    ghost predicate Valid()
      reads this, lists, lists.store
    {
      Inv(View().w, loc) && Backed()
    }

    /** Every entry of the pool starts out free. */
    constructor ()
      ensures Valid() && Fresh(View().w, loc) && fresh(lists) && fresh(lists.store)
    {
      level0 := seq(BUCKETS, i => []);
      level1 := seq(BUCKETS, i => []);
      free, entry := [], map[];
      cursor, l1cursor, tickCount := 0, 0, 0;
      held := NONE;
      phase := Idle;
      loc := map[];
      lists := new Intrusive.Buckets(LISTS, POOL);
      new;
      FillPool();
      FreshInv(View().w, loc);
    }

    method FillPool()
      requires Backed() && free == [] && entry == map[] && loc == map[]
      requires |level0| == |level1| == BUCKETS && forall s :: 0 <= s < BUCKETS ==> level0[s] == [] && level1[s] == []
      requires held == NONE && cursor == 0 && l1cursor == 0 && tickCount == 0 && phase == Idle
      modifies `free, `entry, `loc, lists`lists, lists.store
      ensures Backed() && Fresh(View().w, loc)
    {
      hide Backed;
      hide Intrusive.Loose;
      for i := 0 to POOL
        invariant |free| == i && forall k :: 0 <= k < i ==> free[k] == k + 1
        invariant forall p: Ptr :: p in entry <==> 0 < p <= i
        invariant forall p :: p in entry ==> entry[p] == Entry(0, 0)
        invariant forall p: Ptr :: p in loc <==> 0 < p <= i
        invariant forall p :: p in loc ==> loc[p] == InFree
        invariant Backed()
      {
        ListedNow(i + 1);
        PushFree(i + 1);
        entry := entry[i + 1 := Entry(0, 0)];
        loc := loc[i + 1 := InFree];
      }
    }

    lemma ListedNow(p: Ptr)
      requires Backed() && |level0| == |level1| == BUCKETS && p !in free
      requires forall s :: 0 <= s < BUCKETS ==> p !in level0[s] && p !in level1[s]
      ensures Intrusive.Loose(lists.lists, p)
    {
      NotYetListed(lists.lists, level0, level1, free, p);
    }

    /** An entry that is being fired is on no list. */
    lemma HeldLoose()
      requires Valid() && held in entry
      ensures 0 < held <= POOL && Intrusive.Loose(lists.lists, held)
    {
      ListedNow(held);
    }

    method PushFree(p: Ptr)
      requires Backed() && 0 < p <= POOL && Intrusive.Loose(lists.lists, p)
      modifies `free, lists`lists, lists.store
      ensures Backed() && free == old(free) + [p]
    {
      Refill(lists.lists, FREE, free + [p], level0, level1, free);
      lists.PushBack(FREE, p);
      free := free + [p];
    }

    method PopFree() returns (p: Ptr)
      requires Backed()
      modifies `free, lists`lists, lists.store
      ensures Backed() && if old(free) == [] then p == NONE && free == [] else
                p == old(free)[0] && free == old(free)[1..] && 0 < p <= POOL && Intrusive.Loose(lists.lists, p)
    {
      ghost var rest := if free == [] then [] else free[1..];
      Refill(lists.lists, FREE, rest, level0, level1, free);
      p := lists.PopFront(FREE);
      free := rest;
    }

    method PopLevel0() returns (p: Ptr)
      requires Backed() && cursor < BUCKETS && cursor < |level0| && level0[cursor] != []
      modifies `level0, lists`lists, lists.store
      ensures Backed() && p == old(level0)[cursor][0] && level0 == old(level0)[cursor := old(level0)[cursor][1..]]
    {
      ghost var rest := level0[cursor][1..];
      Refill(lists.lists, cursor, rest, level0, level1, free);
      p := lists.PopFront(cursor);
      level0 := level0[cursor := rest];
    }

    method PopLevel1() returns (p: Ptr)
      requires Backed() && l1cursor < BUCKETS && l1cursor < |level1| && level1[l1cursor] != []
      modifies `level1, lists`lists, lists.store
      ensures Backed() && p == old(level1)[l1cursor][0] && level1 == old(level1)[l1cursor := old(level1)[l1cursor][1..]]
      ensures 0 < p <= POOL && Intrusive.Loose(lists.lists, p)
    {
      ghost var rest := level1[l1cursor][1..];
      Refill(lists.lists, LEVEL1 + l1cursor, rest, level0, level1, free);
      p := lists.PopFront(LEVEL1 + l1cursor);
      level1 := level1[l1cursor := rest];
    }

    /** The bucket under the cursor of level 0 has no entry. */
    method Empty0() returns (r: bool)
      requires Backed() && cursor < BUCKETS
      ensures |level0| == BUCKETS && (r <==> level0[cursor] == [])
    {
      Refill(lists.lists, cursor, [], level0, level1, free);
      r := lists.Empty(cursor);
    }

    method Empty1() returns (r: bool)
      requires Backed() && l1cursor < BUCKETS
      ensures |level1| == BUCKETS && (r <==> level1[l1cursor] == [])
    {
      Refill(lists.lists, LEVEL1 + l1cursor, [], level0, level1, free);
      r := lists.Empty(LEVEL1 + l1cursor);
    }

    method InsertLevel0(p: Ptr, remaining: nat)
      requires Backed() && |level0| == BUCKETS && 0 < p <= POOL && Intrusive.Loose(lists.lists, p)
      modifies `level0, lists`lists, lists.store
      ensures Backed() && View().w == Put0(old(View().w), p, remaining)
    {
      var slot := (cursor + remaining) % BUCKETS;
      ghost var more := level0[slot] + [p];
      Refill(lists.lists, slot, more, level0, level1, free);
      lists.PushBack(slot, p);
      level0 := level0[slot := more];
    }

    method InsertLevel1(p: Ptr, remaining: nat)
      requires Backed() && |level1| == BUCKETS && BUCKETS <= remaining && 0 < p <= POOL && Intrusive.Loose(lists.lists, p)
      modifies `level1, lists`lists, lists.store
      ensures Backed() && View().w == Put1(old(View().w), p, remaining)
    {
      var slot := remaining / BUCKETS - 1;
      if slot >= BUCKETS {
        slot := BUCKETS - 1;
      }
      ghost var more := level1[slot] + [p];
      Refill(lists.lists, LEVEL1 + slot, more, level0, level1, free);
      lists.PushBack(LEVEL1 + slot, p);
      level1 := level1[slot := more];
    }

    /** Files an entry; one that is 65536 or more ticks away is run at once and, being periodic,
        filed by its period. */
    method InsertEntry(p: Ptr)
      requires |level0| == BUCKETS && |level1| == BUCKETS && p in entry && entry[p].period < SPAN
      requires Ends(Remaining(entry[p].deadline, tickCount), entry[p].period)
      requires Backed() && 0 < p <= POOL && Intrusive.Loose(lists.lists, p)
      modifies `level0, `level1, `entry, lists`lists, lists.store
      ensures Backed() && View().w == Insert(old(View().w), p)
      decreases if Remaining(entry[p].deadline, tickCount) < SPAN then 0 else 1
    {
      hide Backed;
      hide Intrusive.Loose;
      var delta := if entry[p].deadline > tickCount then entry[p].deadline - tickCount else 0;
      if delta < BUCKETS {
        if delta == 0 {
          delta := 1;
        }
        InsertLevel0(p, delta);
      } else if delta < BUCKETS * BUCKETS {
        InsertLevel1(p, delta);
      } else {
        entry := entry[p := Entry(tickCount + entry[p].period, entry[p].period)];
        InsertEntry(p);
      }
    }

    /** Arms a free entry; fails exactly when none is free. */
    method Create(deadline: nat, period: nat) returns (ok: bool, p: Ptr)
      requires Valid() && phase == Idle && period < SPAN && Ends(Remaining(deadline, tickCount), period)
      modifies this, lists, lists.store
      ensures Valid() && phase == Idle && (ok <==> old(free) != [])
      ensures ok ==> p == old(free)[0] && Step(old(View()), OpCreate(deadline, period), View())
      ensures !ok ==> View() == old(View())
    {
      hide Inv;
      hide Backed;
      hide Intrusive.Loose;
      ghost var c := View();
      Shape(c);
      p := PopFree();
      if p == NONE {
        return false, p;
      }
      CreateInv(c.w, loc, deadline, period);
      entry := entry[p := Entry(deadline, period)];
      InsertEntry(p);
      loc := Moved(c.w, c.loc, OpCreate(deadline, period));
      ok := true;
    }

    /** What happens to an entry after its callback. */
    method FireEntry(p: Ptr)
      requires Valid() && held == p && p in entry
      modifies this, lists, lists.store
      ensures Valid() && Step(old(View()), OpSettle, View())
    {
      hide Inv;
      hide Backed;
      hide Intrusive.Loose;
      ghost var c := View();
      Shape(c);
      Periods(c);
      SettleInv(c.w, loc);
      HeldLoose();
      held := NONE;
      if entry[p].period > 0 {
        entry := entry[p := Entry(tickCount + entry[p].period, entry[p].period)];
        InsertEntry(p);
      } else {
        entry := entry[p := Entry(0, 0)];
        PushFree(p);
      }
      loc := Moved(c.w, c.loc, OpSettle);
    }

    /** One tick: drains the bucket under the cursor and, when the cursor wraps, cascades one
        bucket of level 1. */
    method Tick() returns (ghost ops: seq<Op>)
      requires Valid() && phase == Idle && |level0| == BUCKETS && |level1| == BUCKETS && cursor < BUCKETS && l1cursor < BUCKETS
      requires TickEnds(View().w)
      modifies this, lists, lists.store
      ensures Valid() && phase == Idle && tickCount == old(tickCount) + 1 && Leads(old(View()), ops, View())
      ensures cursor == (old(cursor) + 1) % BUCKETS
      ensures l1cursor == if old(cursor) + 1 == BUCKETS then (old(l1cursor) + 1) % BUCKETS else old(l1cursor)
    {
      hide Inv;
      hide Backed;
      hide Intrusive.Loose;
      hide Clear;
      ghost var c := View();
      Shape(c);
      TickInv(c.w, loc);
      TickDoomedIff(c);
      ops := [];
      LeadsOn(c, ops, c, OpTick);
      hide Leads;
      tickCount := tickCount + 1;
      phase := Draining;
      ops := ops + [OpTick];
      ops := DrainBucket(c, ops);
      ops := Advance(c, ops);
    }

    /** Moves the cursor on and cascades when it wraps. */
    method Advance(ghost c: Conf, ghost before: seq<Op>) returns (ghost ops: seq<Op>)
      requires Valid() && phase == Draining && held == NONE && Leads(c, before, View())
      requires cursor < |level0| && level0[cursor] == [] && (cursor + 1 == BUCKETS ==> Clear(View().w))
      modifies this, lists, lists.store
      ensures Valid() && phase == Idle && tickCount == old(tickCount) && Leads(c, ops, View())
      ensures cursor == (old(cursor) + 1) % BUCKETS
      ensures l1cursor == if old(cursor) + 1 == BUCKETS then (old(l1cursor) + 1) % BUCKETS else old(l1cursor)
    {
      hide Inv;
      hide Backed;
      hide Intrusive.Loose;
      hide Clear;
      hide Leads;
      ghost var d := View();
      Shape(d);
      DrainedInv(d.w, loc);
      LeadsOn(c, before, d, OpDrained);
      if cursor + 1 == BUCKETS {
        DrainedClear(d);
      }
      ops := before + [OpDrained];
      cursor := cursor + 1;
      phase := Idle;
      if cursor == BUCKETS {
        cursor := 0;
        phase := Cascading;
        ops := CascadeBucket(c, ops);
      }
    }

    method DrainBucket(ghost c: Conf, ghost before: seq<Op>) returns (ghost ops: seq<Op>)
      requires Valid() && phase == Draining && held == NONE && Leads(c, before, View())
      requires cursor + 1 == BUCKETS ==> Clear(View().w)
      modifies this, lists, lists.store
      ensures Valid() && phase == Draining && held == NONE && tickCount == old(tickCount) && cursor == old(cursor) && l1cursor == old(l1cursor)
      ensures cursor < |level0| && level0[cursor] == [] && Leads(c, ops, View())
      ensures cursor + 1 == BUCKETS ==> Clear(View().w)
    {
      hide Inv;
      hide Backed;
      hide Intrusive.Loose;
      hide Clear;
      hide Leads;
      ops := before;
      Shape(View());
      var empty := Empty0();
      while !empty
        invariant cursor < |level0| && (empty <==> level0[cursor] == [])
        invariant Valid() && phase == Draining && held == NONE && tickCount == old(tickCount) && cursor == old(cursor) && l1cursor == old(l1cursor)
        invariant |level0| == BUCKETS && cursor < BUCKETS && Leads(c, ops, View())
        invariant cursor + 1 == BUCKETS ==> Clear(View().w)
        decreases |level0[cursor]|
      {
        Shape(View());
        ops := DrainOne(c, ops);
        Shape(View());
        empty := Empty0();
      }
    }

    method DrainOne(ghost c: Conf, ghost before: seq<Op>) returns (ghost ops: seq<Op>)
      requires Valid() && Allowed(View().w, OpDrain) && Leads(c, before, View()) && (cursor + 1 == BUCKETS ==> Clear(View().w))
      modifies this, lists, lists.store
      ensures Valid() && phase == Draining && held == NONE && tickCount == old(tickCount) && cursor == old(cursor) && l1cursor == old(l1cursor)
      ensures Leads(c, ops, View()) && (cursor + 1 == BUCKETS ==> Clear(View().w))
      ensures |level0| == BUCKETS && level0[cursor] == old(level0)[cursor][1..]
    {
      hide Inv;
      hide Clear;
      hide Leads;
      hide Backed;
      hide Intrusive.Loose;
      ops := before;
      ghost var d := View();
      Shape(d);
      DrainInv(d.w, loc);
      LeadsOn(c, ops, d, OpDrain);
      if cursor + 1 == BUCKETS {
        DrainClear(d);
      }
      Popped(d);
      var p := PopLevel0();
      held := p;
      loc := Moved(d.w, d.loc, OpDrain);
      ops := ops + [OpDrain];
      ghost var e := View();
      LeadsOn(c, ops, e, OpSettle);
      SettleElsewhere(e);
      if cursor + 1 == BUCKETS {
        SettleClear(e);
      }
      FireEntry(p);
      ops := ops + [OpSettle];
      Shape(View());
    }

    method CascadeBucket(ghost c: Conf, ghost before: seq<Op>) returns (ghost ops: seq<Op>)
      requires Valid() && phase == Cascading && held == NONE && Leads(c, before, View()) && Clear(View().w)
      modifies this, lists, lists.store
      ensures Valid() && tickCount == old(tickCount) && cursor == old(cursor) && phase == Idle && Leads(c, ops, View())
      ensures l1cursor == (old(l1cursor) + 1) % BUCKETS
    {
      hide Inv;
      hide Backed;
      hide Intrusive.Loose;
      hide Leads;
      hide Clear;
      ops := before;
      Shape(View());
      var empty := Empty1();
      while !empty
        invariant l1cursor < |level1| && (empty <==> level1[l1cursor] == [])
        invariant Valid() && phase == Cascading && held == NONE && tickCount == old(tickCount) && cursor == old(cursor) && l1cursor == old(l1cursor)
        invariant |level1| == BUCKETS && l1cursor < BUCKETS && Leads(c, ops, View()) && Clear(View().w)
        decreases |level1[l1cursor]|
      {
        Shape(View());
        ops := CascadeOne(c, ops);
        Shape(View());
        empty := Empty1();
      }
      ops := CascadeEnd(c, ops);
    }

    method CascadeEnd(ghost c: Conf, ghost before: seq<Op>) returns (ghost ops: seq<Op>)
      requires Valid() && Leads(c, before, View()) && phase == Cascading && held == NONE
      requires l1cursor < |level1| && level1[l1cursor] == []
      modifies this, lists, lists.store
      ensures Valid() && phase == Idle && tickCount == old(tickCount) && cursor == old(cursor) && Leads(c, ops, View())
      ensures l1cursor == (old(l1cursor) + 1) % BUCKETS
    {
      hide Inv;
      hide Backed;
      hide Intrusive.Loose;
      hide Leads;
      Shape(View());
      CascadedInv(View().w, loc);
      LeadsOn(c, before, View(), OpCascaded);
      ops := before + [OpCascaded];
      l1cursor := (l1cursor + 1) % BUCKETS;
      phase := Idle;
    }

    /** A cascaded entry that is due is fired at once. */
    method FireDue(ghost c: Conf, ghost before: seq<Op>, p: Ptr) returns (ghost ops: seq<Op>)
      requires Valid() && Allowed(View().w, OpSettle) && held == p && phase == Cascading && Leads(c, before, View()) && Clear(View().w)
      modifies this, lists, lists.store
      ensures Valid() && phase == Cascading && held == NONE && tickCount == old(tickCount) && cursor == old(cursor) && l1cursor == old(l1cursor)
      ensures Leads(c, ops, View()) && Clear(View().w) && |level1| == BUCKETS && level1[l1cursor] == old(level1)[l1cursor]
    {
      hide Inv;
      hide Backed;
      hide Clear;
      hide Leads;
      LeadsOn(c, before, View(), OpSettle);
      SettleClear(View());
      ops := before + [OpSettle];
      FireEntry(p);
    }

    method CascadeOne(ghost c: Conf, ghost before: seq<Op>) returns (ghost ops: seq<Op>)
      requires Valid() && Allowed(View().w, OpCascade) && Leads(c, before, View()) && Clear(View().w)
      modifies this, lists, lists.store
      ensures Valid() && phase == Cascading && held == NONE && tickCount == old(tickCount) && cursor == old(cursor) && l1cursor == old(l1cursor)
      ensures Leads(c, ops, View()) && Clear(View().w) && |level1| == BUCKETS && level1[l1cursor] == old(level1)[l1cursor][1..]
    {
      hide Inv;
      hide Backed;
      hide Intrusive.Loose;
      hide Clear;
      hide Leads;
      ghost var d := View();
      CascadeInv(d.w, loc);
      CascadeClear(d);
      LeadsOn(c, before, d, OpCascade);
      ops := before + [OpCascade];
      var due := CascadeEntry();
      loc := Moved(d.w, d.loc, OpCascade);
      Shape(View());
      if due != NONE {
        ops := FireDue(c, ops, due);
      }
    }

    /** Takes the first entry off the current level-1 bucket and files it by its distance; an
        entry that is due is returned instead. */
    method CascadeEntry() returns (due: Ptr)
      requires Backed() && Allowed(View().w, OpCascade)
      modifies `level0, `level1, `held, lists`lists, lists.store
      ensures Backed() && View().w == Cascade(old(View().w)) && due == held && (due != NONE ==> due in entry)
    {
      hide Backed;
      hide Intrusive.Loose;
      due := NONE;
      var p := PopLevel1();
      var remaining := if entry[p].deadline > tickCount then entry[p].deadline - tickCount else 0;
      if remaining == 0 {
        held, due := p, p;
      } else if remaining < BUCKETS {
        InsertLevel0(p, remaining);
      } else {
        InsertLevel1(p, remaining);
      }
    }
  }

  lemma NotYetListed(lists: seq<seq<Ptr>>, level0: seq<seq<Ptr>>, level1: seq<seq<Ptr>>, free: seq<Ptr>, p: Ptr)
    requires Filled(lists, level0, level1, free) && |level0| == |level1| == BUCKETS && p !in free
    requires forall s :: 0 <= s < BUCKETS ==> p !in level0[s] && p !in level1[s]
    ensures Intrusive.Loose(lists, p)
  {
    forall i | 0 <= i < |lists|
      ensures p !in lists[i]
    {
      if i < LEVEL1 {
        assert lists[i] == level0[i];
      } else if i < FREE {
        assert lists[i] == level1[i - LEVEL1];
      }
    }
  }

  lemma Shape(c: Conf)
    requires Inv(c.w, c.loc)
    ensures |c.w.level0| == BUCKETS && |c.w.level1| == BUCKETS && c.w.cursor < BUCKETS && c.w.l1cursor < BUCKETS
    ensures c.w.level1[c.w.l1cursor] != [] ==> c.w.level1[c.w.l1cursor][0] in c.w.entry
    ensures c.w.phase == Idle ==> c.w.held == NONE
  {
    if c.w.level1[c.w.l1cursor] != [] {
      TakeLevel1(c.w, c.loc);
    }
  }

  lemma Periods(c: Conf)
    requires Inv(c.w, c.loc)
    ensures forall p :: p in c.w.entry ==> c.w.entry[p].period < SPAN
  {
  }

  lemma Popped(c: Conf)
    requires Inv(c.w, c.loc) && Allowed(c.w, OpDrain)
    ensures c.w.level0[c.w.cursor][0] in c.w.entry
  {
    DueNow(c.w, c.loc, c.w.level0[c.w.cursor][0]);
  }
}
