/** The two-level timer wheel, in steps small enough that every intermediate state shows. */
module Wheel {

  type Ptr = nat

  const BUCKETS: nat := 256
  const SPAN: nat := 65536
  const POOL: nat := 64

  /** No entry is being fired. */
  const NONE: Ptr := 0

  datatype Entry = Entry(deadline: nat, period: nat)

  datatype Phase = Idle | Draining | Cascading

  datatype State = State(level0: seq<seq<Ptr>>, level1: seq<seq<Ptr>>, free: seq<Ptr>, held: Ptr, entry: map<Ptr, Entry>,
                         cursor: nat, l1cursor: nat, now: nat, phase: Phase)

  // ----- inserting -----

  function Remaining(deadline: nat, now: nat): nat { if deadline > now then deadline - now else 0 }

  ghost function Put0(w: State, p: Ptr, remaining: nat): State
    requires |w.level0| == BUCKETS
  {
    var slot := (w.cursor + remaining) % BUCKETS;
    w.(level0 := w.level0[slot := w.level0[slot] + [p]])
  }

  function Slot1(remaining: nat): nat
    requires BUCKETS <= remaining
  {
    if remaining / BUCKETS - 1 >= BUCKETS then BUCKETS - 1 else remaining / BUCKETS - 1
  }

  ghost function Put1(w: State, p: Ptr, remaining: nat): State
    requires |w.level1| == BUCKETS && BUCKETS <= remaining
  {
    var slot := Slot1(remaining);
    w.(level1 := w.level1[slot := w.level1[slot] + [p]])
  }

  /** An entry due less than 65536 ticks away goes into the level for its distance. */
  ghost function File(w: State, p: Ptr): State
    requires |w.level0| == BUCKETS && |w.level1| == BUCKETS && p in w.entry
  {
    var delta := Remaining(w.entry[p].deadline, w.now);
    if delta < BUCKETS then Put0(w, p, if delta == 0 then 1 else delta) else Put1(w, p, delta)
  }

  /** An entry that is armed again after its callback, or freed. */
  ghost function Rearm(w: State, p: Ptr): State
    requires |w.level0| == BUCKETS && |w.level1| == BUCKETS && p in w.entry
  {
    var e := w.entry[p];
    if e.period > 0 then File(w.(entry := w.entry[p := Entry(w.now + e.period, e.period)]), p)
    else w.(entry := w.entry[p := Entry(0, 0)], free := w.free + [p])
  }

  /** An entry 65536 or more ticks away is run at once and filed by its period instead. */
  ghost function Insert(w: State, p: Ptr): State
    requires |w.level0| == BUCKETS && |w.level1| == BUCKETS && p in w.entry
    requires Ends(Remaining(w.entry[p].deadline, w.now), w.entry[p].period)
  {
    if Remaining(w.entry[p].deadline, w.now) < SPAN then File(w, p) else Rearm(w, p)
  }

  /** A timer that can be inserted by a caller that holds the lock of the wheel. */
  predicate Ends(delta: nat, period: nat) { delta < SPAN || 0 < period < SPAN }

  // ----- whether a call returns -----

  /** Where a call is: inserting an entry `delta` ticks away, waiting for the lock to put it
      back into the pool, or done. */
  datatype Call = Inserting(delta: nat) | Freeing | Returned

  /** One round of insertion, which runs the callback of an entry that is too far away, or one
      try to take the lock. A lock that the caller itself holds is never given up meanwhile. */
  function Round(c: Call, period: nat, locked: bool): Call {
    match c
    case Inserting(delta) => if delta < SPAN then Returned else if period > 0 then Inserting(period) else Freeing
    case Freeing => if locked then Freeing else Returned
    case Returned => Returned
  }

  function After(c: Call, period: nat, locked: bool, n: nat): Call {
    if n == 0 then c else Round(After(c, period, locked, n - 1), period, locked)
  }

  /** How often the callback has run in the first `n` rounds. */
  function Callbacks(c: Call, period: nat, locked: bool, n: nat): nat {
    if n == 0 then 0
    else
      var d := After(c, period, locked, n - 1);
      Callbacks(c, period, locked, n - 1) + if d.Inserting? && SPAN <= d.delta then 1 else 0
  }

  /** Insertion under the lock, as in creation, returns exactly for the timers of `Ends`. */
  lemma InsertEndsIff(delta: nat, period: nat)
    ensures (exists n: nat :: After(Inserting(delta), period, true, n) == Returned) <==> Ends(delta, period)
  {
    var c := Inserting(delta);
    if Ends(delta, period) {
      var n: nat := if delta < SPAN then 1 else 2;
      assert After(c, period, true, 1) == Round(After(c, period, true, 0), period, true);
      assert After(c, period, true, n) == Returned;
    } else {
      forall n: nat
        ensures After(c, period, true, n) != Returned
      {
        if period == 0 {
          FarOneShotHangs(delta, n);
        } else {
          FarForever(delta, period, true, n);
        }
      }
    }
  }

  /** Without the lock, as after a callback in a tick, it returns exactly for periods below 65536. */
  lemma RearmEndsIff(period: nat)
    requires 0 < period
    ensures (exists n: nat :: After(Inserting(period), period, false, n) == Returned) <==> period < SPAN
  {
    var c := Inserting(period);
    if period < SPAN {
      var n: nat := 1;
      assert After(c, period, false, n) == Round(After(c, period, false, 0), period, false);
    } else {
      forall n: nat
        ensures After(c, period, false, n) != Returned
      {
        FarForever(period, period, false, n);
      }
    }
  }

  /** A far entry with a far period is run again and again. */
  lemma {:induction false} FarForever(delta: nat, period: nat, locked: bool, n: nat)
    requires SPAN <= delta && SPAN <= period
    ensures After(Inserting(delta), period, locked, n) == Inserting(if n == 0 then delta else period)
    ensures Callbacks(Inserting(delta), period, locked, n) == n
  {
    if n > 0 {
      FarForever(delta, period, locked, n - 1);
    }
  }

  /** Putting an entry back into the pool while holding the lock never returns. */
  lemma {:induction false} LockedFreeHangs(period: nat, n: nat)
    ensures After(Freeing, period, true, n) == Freeing
  {
    if n > 0 {
      LockedFreeHangs(period, n - 1);
    }
  }

  /** Creating a one-shot timer 65536 or more ticks ahead runs its callback, once and early,
      and never returns. */
  lemma {:induction false} FarOneShotHangs(delta: nat, n: nat)
    requires SPAN <= delta
    ensures After(Inserting(delta), 0, true, n) == if n == 0 then Inserting(delta) else Freeing
    ensures Callbacks(Inserting(delta), 0, true, n) == if n == 0 then 0 else 1
  {
    if n > 0 {
      FarOneShotHangs(delta, n - 1);
    }
  }

  // ----- steps -----

  datatype Op =
    | OpCreate(deadline: nat, period: nat)
    | OpTick
    | OpDrain
    | OpDrained
    | OpCascade
    | OpSettle
    | OpCascaded

  ghost function Create(w: State, deadline: nat, period: nat): State
    requires |w.level0| == BUCKETS && |w.level1| == BUCKETS && w.free != [] && Ends(Remaining(deadline, w.now), period)
  {
    var p := w.free[0];
    Insert(w.(free := w.free[1..], entry := w.entry[p := Entry(deadline, period)]), p)
  }

  /** Pops and runs the first entry of the current bucket. */
  ghost function Drain(w: State): State
    requires w.cursor < |w.level0| && w.level0[w.cursor] != []
  {
    var b := w.level0[w.cursor];
    w.(level0 := w.level0[w.cursor := b[1..]], held := b[0])
  }

  /** After its callback an entry is armed again or freed. */
  ghost function Settle(w: State): State
    requires |w.level0| == BUCKETS && |w.level1| == BUCKETS && w.held in w.entry
  {
    Rearm(w.(held := NONE), w.held)
  }

  ghost function Drained(w: State): State {
    if w.cursor + 1 == BUCKETS then w.(cursor := 0, phase := Cascading) else w.(cursor := w.cursor + 1, phase := Idle)
  }

  /** Pops the first entry of the current level-1 bucket: it is run if it is due and moved
      by its distance if not. */
  ghost function Cascade(w: State): State
    requires |w.level0| == BUCKETS && |w.level1| == BUCKETS && w.l1cursor < BUCKETS && w.level1[w.l1cursor] != []
    requires w.level1[w.l1cursor][0] in w.entry
  {
    var b := w.level1[w.l1cursor];
    var p := b[0];
    var w1 := w.(level1 := w.level1[w.l1cursor := b[1..]]);
    var remaining := Remaining(w.entry[p].deadline, w.now);
    if remaining == 0 then w1.(held := p)
    else if remaining < BUCKETS then Put0(w1, p, remaining)
    else Put1(w1, p, remaining)
  }

  ghost function Cascaded(w: State): State { w.(l1cursor := (w.l1cursor + 1) % BUCKETS, phase := Idle) }

  // ----- invariant -----

  datatype Place = In0(slot: nat) | In1(slot: nat) | InFree | InHand

  ghost predicate NoDup(s: seq<Ptr>) { forall i, j :: 0 <= i < j < |s| ==> s[i] != s[j] }

  /** Bucket `s` of one level holds exactly the entries that are there. */
  ghost predicate BucketOk(b: seq<Ptr>, loc: map<Ptr, Place>, place: Place) {
    NoDup(b) && forall p {:trigger p in b} :: p in b <==> p in loc && loc[p] == place
  }

  ghost predicate Filed(w: State, loc: map<Ptr, Place>) {
    && |w.level0| == BUCKETS && |w.level1| == BUCKETS
    && (forall s :: 0 <= s < BUCKETS ==> BucketOk(w.level0[s], loc, In0(s)))
    && (forall s :: 0 <= s < BUCKETS ==> BucketOk(w.level1[s], loc, In1(s)))
    && BucketOk(w.free, loc, InFree)
    && (forall p: Ptr :: p in loc <==> 0 < p <= POOL) && w.entry.Keys == loc.Keys
  }

  /** Every entry of the pool is in exactly one bucket, in the free list or being fired. */
  ghost predicate Placed(w: State, loc: map<Ptr, Place>) {
    && Filed(w, loc) && (w.held != NONE ==> w.held in loc)
    && (forall p :: p in loc ==> (loc[p] == InHand <==> p == w.held))
  }

  /** The tick that drains, or is draining, the bucket under the cursor. */
  function Base(w: State): nat { if w.phase == Draining then w.now else w.now + 1 }

  /** The tick at which a level-0 bucket will be drained. */
  function DueAt(w: State, slot: nat): nat
    requires w.cursor < BUCKETS
  {
    Base(w) + (slot + BUCKETS - w.cursor) % BUCKETS
  }

  ghost predicate Timed(w: State, loc: map<Ptr, Place>) {
    && w.cursor < BUCKETS && w.l1cursor < BUCKETS
    && (forall p :: p in w.entry ==> w.entry[p].period < SPAN)
    && (forall p :: p in loc && p in w.entry && loc[p].In0? ==> loc[p].slot < BUCKETS && w.entry[p].deadline <= DueAt(w, loc[p].slot))
    && (forall p :: p in loc && loc[p].In1? ==> loc[p].slot < BUCKETS)
    && (w.phase == Cascading ==> w.cursor == 0)
    && (w.phase == Idle ==> w.held == NONE)
  }

  ghost predicate Inv(w: State, loc: map<Ptr, Place>) { Placed(w, loc) && Timed(w, loc) }

  // ----- where entries go -----

  ghost function Place0(w: State, remaining: nat): Place { In0((w.cursor + remaining) % BUCKETS) }

  ghost function PlaceFor(w: State, e: Entry): Place {
    var delta := Remaining(e.deadline, w.now);
    if delta < BUCKETS then Place0(w, if delta == 0 then 1 else delta) else In1(Slot1(delta))
  }

  ghost function PlaceAfter(w: State, e: Entry): Place {
    if e.period > 0 then PlaceFor(w, Entry(w.now + e.period, e.period)) else InFree
  }

  lemma BucketAdd(b: seq<Ptr>, loc: map<Ptr, Place>, place: Place, p: Ptr)
    requires BucketOk(b, loc, place) && p !in b
    ensures BucketOk(b + [p], loc[p := place], place)
  {
  }

  lemma BucketOther(b: seq<Ptr>, loc: map<Ptr, Place>, place: Place, p: Ptr, there: Place)
    requires BucketOk(b, loc, place) && p !in b && place != there
    ensures BucketOk(b, loc[p := there], place)
  {
  }

  lemma BucketTake(b: seq<Ptr>, loc: map<Ptr, Place>, place: Place, there: Place)
    requires BucketOk(b, loc, place) && b != [] && place != there
    ensures BucketOk(b[1..], loc[b[0] := there], place) && b[0] in loc && loc[b[0]] == place
  {
    assert b[0] in b && b[0] !in b[1..];
    assert forall p: Ptr :: p in b <==> p == b[0] || p in b[1..];
  }

  ghost predicate Loose(loc: map<Ptr, Place>, p: Ptr) { p in loc && loc[p] == InHand }

  lemma FilePut0(w: State, loc: map<Ptr, Place>, p: Ptr, slot: nat)
    requires Filed(w, loc) && Loose(loc, p) && slot < BUCKETS
    ensures Filed(w.(level0 := w.level0[slot := w.level0[slot] + [p]]), loc[p := In0(slot)])
  {
    var w', loc' := w.(level0 := w.level0[slot := w.level0[slot] + [p]]), loc[p := In0(slot)];
    forall s | 0 <= s < BUCKETS
      ensures BucketOk(w'.level0[s], loc', In0(s)) && BucketOk(w'.level1[s], loc', In1(s))
    {
      if s == slot {
        BucketAdd(w.level0[s], loc, In0(s), p);
      } else {
        BucketOther(w.level0[s], loc, In0(s), p, In0(slot));
      }
      BucketOther(w.level1[s], loc, In1(s), p, In0(slot));
    }
    BucketOther(w.free, loc, InFree, p, In0(slot));
  }

  lemma FilePut1(w: State, loc: map<Ptr, Place>, p: Ptr, slot: nat)
    requires Filed(w, loc) && Loose(loc, p) && slot < BUCKETS
    ensures Filed(w.(level1 := w.level1[slot := w.level1[slot] + [p]]), loc[p := In1(slot)])
  {
    var w', loc' := w.(level1 := w.level1[slot := w.level1[slot] + [p]]), loc[p := In1(slot)];
    forall s | 0 <= s < BUCKETS
      ensures BucketOk(w'.level0[s], loc', In0(s)) && BucketOk(w'.level1[s], loc', In1(s))
    {
      if s == slot {
        BucketAdd(w.level1[s], loc, In1(s), p);
      } else {
        BucketOther(w.level1[s], loc, In1(s), p, In1(slot));
      }
      BucketOther(w.level0[s], loc, In0(s), p, In1(slot));
    }
    BucketOther(w.free, loc, InFree, p, In1(slot));
  }

  lemma FileFree(w: State, loc: map<Ptr, Place>, p: Ptr)
    requires Filed(w, loc) && Loose(loc, p)
    ensures Filed(w.(free := w.free + [p]), loc[p := InFree])
  {
    forall s | 0 <= s < BUCKETS
      ensures BucketOk(w.level0[s], loc[p := InFree], In0(s)) && BucketOk(w.level1[s], loc[p := InFree], In1(s))
    {
      BucketOther(w.level0[s], loc, In0(s), p, InFree);
      BucketOther(w.level1[s], loc, In1(s), p, InFree);
    }
    BucketAdd(w.free, loc, InFree, p);
  }

  lemma FileTake(w: State, loc: map<Ptr, Place>, w': State, p: Ptr, from: Place)
    requires Filed(w, loc) && |w'.level0| == BUCKETS && |w'.level1| == BUCKETS && w'.entry == w.entry
    requires p in loc && loc[p] == from && from != InHand
    requires forall s :: 0 <= s < BUCKETS ==>
               if from == In0(s) then w.level0[s] != [] && w.level0[s][0] == p && w'.level0[s] == w.level0[s][1..] else w'.level0[s] == w.level0[s]
    requires forall s :: 0 <= s < BUCKETS ==>
               if from == In1(s) then w.level1[s] != [] && w.level1[s][0] == p && w'.level1[s] == w.level1[s][1..] else w'.level1[s] == w.level1[s]
    requires if from == InFree then w.free != [] && w.free[0] == p && w'.free == w.free[1..] else w'.free == w.free
    ensures Filed(w', loc[p := InHand])
  {
    forall s | 0 <= s < BUCKETS
      ensures BucketOk(w'.level0[s], loc[p := InHand], In0(s)) && BucketOk(w'.level1[s], loc[p := InHand], In1(s))
    {
      TakeOrNot(w.level0[s], loc, In0(s), p, w'.level0[s]);
      TakeOrNot(w.level1[s], loc, In1(s), p, w'.level1[s]);
    }
    TakeOrNot(w.free, loc, InFree, p, w'.free);
  }

  lemma TakeOrNot(b: seq<Ptr>, loc: map<Ptr, Place>, place: Place, p: Ptr, b': seq<Ptr>)
    requires BucketOk(b, loc, place) && p in loc && place != InHand
    requires if loc[p] == place then b != [] && b[0] == p && b' == b[1..] else b' == b
    ensures BucketOk(b', loc[p := InHand], place)
  {
    if loc[p] == place {
      BucketTake(b, loc, place, InHand);
    } else {
      BucketOther(b, loc, place, p, InHand);
    }
  }

  // ----- timing -----

  /** A bucket `remaining` places ahead of the cursor is drained `remaining` ticks after it. */
  lemma DueAhead(w: State, remaining: nat)
    requires w.cursor < BUCKETS && remaining < BUCKETS
    ensures DueAt(w, (w.cursor + remaining) % BUCKETS) == Base(w) + remaining
  {
  }

  /** Draining the next bucket brings every other bucket one place nearer. */
  lemma DueStays(w: State, slot: nat)
    requires w.cursor < BUCKETS && slot < BUCKETS && slot != w.cursor && w.phase == Draining
    ensures DueAt(Drained(w), slot) == DueAt(w, slot)
  {
  }

  lemma FiledSizes(w: State, loc: map<Ptr, Place>)
    requires Filed(w, loc)
    ensures |w.level0| == BUCKETS && |w.level1| == BUCKETS && w.entry.Keys == loc.Keys && forall p: Ptr :: p in loc <==> 0 < p <= POOL
  {
  }

  ghost predicate JustLoose(w: State, loc: map<Ptr, Place>, p: Ptr) {
    Filed(w, loc) && Timed(w, loc) && Loose(loc, p) && w.held == NONE && forall q :: q in loc && loc[q] == InHand ==> q == p
  }

  /** Filing an entry keeps the invariant and never makes it due before its deadline. */
  lemma FileInv(w: State, loc: map<Ptr, Place>, p: Ptr)
    requires JustLoose(w, loc, p) && Remaining(w.entry[p].deadline, w.now) < SPAN
    ensures Inv(File(w, p), loc[p := PlaceFor(w, w.entry[p])])
  {
    hide Filed;
    hide DueAt;
    FiledSizes(w, loc);
    var delta := Remaining(w.entry[p].deadline, w.now);
    if delta < BUCKETS {
      var r := if delta == 0 then 1 else delta;
      DueAhead(w, r);
      FilePut0(w, loc, p, (w.cursor + r) % BUCKETS);
      SameDue(w, Put0(w, p, r));
    } else {
      FilePut1(w, loc, p, Slot1(delta));
      SameDue(w, Put1(w, p, delta));
    }
  }

  lemma RearmInv(w: State, loc: map<Ptr, Place>, p: Ptr)
    requires JustLoose(w, loc, p)
    ensures Inv(Rearm(w, p), loc[p := PlaceAfter(w, w.entry[p])])
  {
    hide Filed;
    hide DueAt;
    hide File;
    hide PlaceFor;
    FiledSizes(w, loc);
    var e := w.entry[p];
    if e.period > 0 {
      var w1 := w.(entry := w.entry[p := Entry(w.now + e.period, e.period)]);
      FiledEntry(w, loc, w1);
      SameDue(w, w1);
      FileInv(w1, loc, p);
      SamePlace(w, w1, w1.entry[p]);
    } else {
      var w1 := w.(entry := w.entry[p := Entry(0, 0)]);
      FiledEntry(w, loc, w1);
      FileFree(w1, loc, p);
      SameDue(w, Rearm(w, p));
    }
  }

  /** Inserting an entry keeps the invariant, if it ends. */
  lemma InsertInv(w: State, loc: map<Ptr, Place>, p: Ptr)
    requires JustLoose(w, loc, p) && Ends(Remaining(w.entry[p].deadline, w.now), w.entry[p].period)
    ensures Inv(Insert(w, p), loc[p := Inserted(w, w.entry[p])])
  {
    hide Filed;
    hide Inv;
    hide File;
    hide Rearm;
    hide PlaceFor;
    FiledSizes(w, loc);
    if Remaining(w.entry[p].deadline, w.now) < SPAN {
      FileInv(w, loc, p);
    } else {
      RearmInv(w, loc, p);
    }
  }

  ghost function Inserted(w: State, e: Entry): Place {
    if Remaining(e.deadline, w.now) < SPAN then PlaceFor(w, e) else PlaceAfter(w, e)
  }

  lemma SameDue(w: State, w': State)
    requires w'.cursor == w.cursor < BUCKETS && w'.now == w.now && w'.phase == w.phase
    ensures forall s :: 0 <= s < BUCKETS ==> DueAt(w', s) == DueAt(w, s)
  {
  }

  // ----- every step keeps the invariant -----

  ghost predicate Allowed(w: State, op: Op) {
    && |w.level0| == BUCKETS && |w.level1| == BUCKETS && w.cursor < BUCKETS && w.l1cursor < BUCKETS
    && match op
       case OpCreate(deadline, period) => w.phase == Idle && w.free != [] && period < SPAN && Ends(Remaining(deadline, w.now), period)
       case OpTick => w.phase == Idle
       case OpDrain => w.phase == Draining && w.held == NONE && w.level0[w.cursor] != []
       case OpDrained => w.phase == Draining && w.held == NONE && w.level0[w.cursor] == []
       case OpCascade => w.phase == Cascading && w.held == NONE && w.level1[w.l1cursor] != [] && w.level1[w.l1cursor][0] in w.entry
       case OpSettle => w.held in w.entry
       case OpCascaded => w.phase == Cascading && w.held == NONE && w.level1[w.l1cursor] == []
  }

  ghost function Apply(w: State, op: Op): State
    requires Allowed(w, op)
  {
    match op
    case OpCreate(deadline, period) => Create(w, deadline, period)
    case OpTick => w.(now := w.now + 1, phase := Draining)
    case OpDrain => Drain(w)
    case OpDrained => Drained(w)
    case OpCascade => Cascade(w)
    case OpSettle => Settle(w)
    case OpCascaded => Cascaded(w)
  }

  /** Where every entry is after the step. */
  ghost function Moved(w: State, loc: map<Ptr, Place>, op: Op): map<Ptr, Place>
    requires Allowed(w, op)
  {
    match op
    case OpCreate(deadline, period) => loc[w.free[0] := Inserted(w, Entry(deadline, period))]
    case OpDrain => loc[w.level0[w.cursor][0] := InHand]
    case OpCascade =>
      var p := w.level1[w.l1cursor][0];
      var remaining := Remaining(w.entry[p].deadline, w.now);
      loc[p := if remaining == 0 then InHand else if remaining < BUCKETS then Place0(w, remaining) else In1(Slot1(remaining))]
    case OpSettle =>
      loc[w.held := PlaceAfter(w, w.entry[w.held])]
    case _ => loc
  }

  lemma CreateInv(w: State, loc: map<Ptr, Place>, deadline: nat, period: nat)
    requires Inv(w, loc) && Allowed(w, OpCreate(deadline, period))
    ensures Inv(Create(w, deadline, period), Moved(w, loc, OpCreate(deadline, period)))
  {
    hide Filed;
    hide DueAt;
    hide Insert;
    hide Inserted;
    var p := w.free[0];
    var w1, loc1 := w.(free := w.free[1..]), loc[w.free[0] := InHand];
    TakeFree(w, loc);
    var w2 := w1.(entry := w.entry[p := Entry(deadline, period)]);
    FiledSizes(w, loc);
    FiledEntry(w1, loc1, w2);
    SameDue(w, w2);
    InsertInv(w2, loc1, p);
    SamePlace(w, w2, w2.entry[p]);
    assert loc1[p := Inserted(w2, w2.entry[p])] == Moved(w, loc, OpCreate(deadline, period));
  }

  lemma FiledEntry(w: State, loc: map<Ptr, Place>, w': State)
    requires Filed(w, loc) && w'.level0 == w.level0 && w'.level1 == w.level1 && w'.free == w.free && w'.entry.Keys == w.entry.Keys
    ensures Filed(w', loc)
  {
  }

  lemma TickInv(w: State, loc: map<Ptr, Place>)
    requires Inv(w, loc) && Allowed(w, OpTick)
    ensures Inv(Apply(w, OpTick), loc)
  {
    FiledEntry(w, loc, Apply(w, OpTick));
    hide Filed;
  }

  lemma DrainInv(w: State, loc: map<Ptr, Place>)
    requires Inv(w, loc) && Allowed(w, OpDrain)
    ensures Inv(Drain(w), Moved(w, loc, OpDrain))
  {
    var p := w.level0[w.cursor][0];
    assert p in w.level0[w.cursor];
    assert BucketOk(w.level0[w.cursor], loc, In0(w.cursor));
    FileTake(w, loc, Drain(w), p, In0(w.cursor));
    hide Filed;
    SameDue(w, Drain(w));
    hide DueAt;
  }

  lemma DrainedInv(w: State, loc: map<Ptr, Place>)
    requires Inv(w, loc) && Allowed(w, OpDrained)
    ensures Inv(Drained(w), loc)
  {
    var w' := Drained(w);
    FiledEntry(w, loc, w');
    forall p | p in loc && loc[p].In0?
      ensures loc[p].slot < BUCKETS && loc[p].slot != w.cursor && DueAt(w', loc[p].slot) == DueAt(w, loc[p].slot)
    {
      assert BucketOk(w.level0[w.cursor], loc, In0(w.cursor));
      assert p !in w.level0[w.cursor];
      DueStays(w, loc[p].slot);
    }
    hide Filed;
    hide DueAt;
  }

  lemma SettleInv(w: State, loc: map<Ptr, Place>)
    requires Inv(w, loc) && Allowed(w, OpSettle)
    ensures Inv(Settle(w), Moved(w, loc, OpSettle))
  {
    hide Filed;
    hide Rearm;
    hide PlaceAfter;
    FiledSizes(w, loc);
    var w1 := w.(held := NONE);
    FiledEntry(w, loc, w1);
    SameDue(w, w1);
    RearmInv(w1, loc, w.held);
    SamePlace(w, w1, w.entry[w.held]);
  }

  lemma TakeFree(w: State, loc: map<Ptr, Place>)
    requires Filed(w, loc) && w.free != []
    ensures var p := w.free[0]; p in loc && loc[p] == InFree && Filed(w.(free := w.free[1..]), loc[p := InHand])
  {
    var p := w.free[0];
    assert p in w.free;
    FileTake(w, loc, w.(free := w.free[1..]), p, InFree);
  }

  lemma SamePlace(w: State, w': State, e: Entry)
    requires w'.now == w.now && w'.cursor == w.cursor
    ensures PlaceFor(w', e) == PlaceFor(w, e) && PlaceAfter(w', e) == PlaceAfter(w, e) && Inserted(w', e) == Inserted(w, e)
  {
  }

  lemma TakeLevel1(w: State, loc: map<Ptr, Place>)
    requires Filed(w, loc) && w.l1cursor < BUCKETS && w.level1[w.l1cursor] != []
    ensures var b := w.level1[w.l1cursor]; var p := b[0];
            p in loc && loc[p] == In1(w.l1cursor) && Filed(w.(level1 := w.level1[w.l1cursor := b[1..]]), loc[p := InHand])
  {
    var b := w.level1[w.l1cursor];
    var p := b[0];
    assert p in b && BucketOk(b, loc, In1(w.l1cursor));
    FileTake(w, loc, w.(level1 := w.level1[w.l1cursor := b[1..]]), p, In1(w.l1cursor));
  }

  lemma CascadeInv(w: State, loc: map<Ptr, Place>)
    requires Inv(w, loc) && Allowed(w, OpCascade)
    ensures Inv(Cascade(w), Moved(w, loc, OpCascade))
  {
    hide Filed;
    hide DueAt;
    FiledSizes(w, loc);
    TakeLevel1(w, loc);
    var b := w.level1[w.l1cursor];
    var p := b[0];
    var w1, loc1 := w.(level1 := w.level1[w.l1cursor := b[1..]]), loc[b[0] := InHand];
    SameDue(w, w1);
    var remaining := Remaining(w.entry[p].deadline, w.now);
    if remaining == 0 {
      FiledEntry(w1, loc1, Cascade(w));
      SameDue(w, Cascade(w));
    } else if remaining < BUCKETS {
      Cascade0(w1, loc1, p, remaining);
      assert loc1[p := Place0(w, remaining)] == Moved(w, loc, OpCascade);
    } else {
      Cascade1(w1, loc1, p, remaining);
      assert loc1[p := In1(Slot1(remaining))] == Moved(w, loc, OpCascade);
    }
  }

  lemma Cascade0(w: State, loc: map<Ptr, Place>, p: Ptr, remaining: nat)
    requires JustLoose(w, loc, p) && remaining == Remaining(w.entry[p].deadline, w.now) && 0 < remaining < BUCKETS && w.phase == Cascading
    ensures Inv(Put0(w, p, remaining), loc[p := Place0(w, remaining)])
  {
    hide Filed;
    hide DueAt;
    FiledSizes(w, loc);
    DueAhead(w, remaining);
    FilePut0(w, loc, p, (w.cursor + remaining) % BUCKETS);
    SameDue(w, Put0(w, p, remaining));
  }

  lemma Cascade1(w: State, loc: map<Ptr, Place>, p: Ptr, remaining: nat)
    requires JustLoose(w, loc, p) && BUCKETS <= remaining && w.phase == Cascading
    ensures Inv(Put1(w, p, remaining), loc[p := In1(Slot1(remaining))])
  {
    hide Filed;
    hide DueAt;
    FiledSizes(w, loc);
    FilePut1(w, loc, p, Slot1(remaining));
    SameDue(w, Put1(w, p, remaining));
  }

  lemma CascadedInv(w: State, loc: map<Ptr, Place>)
    requires Inv(w, loc) && Allowed(w, OpCascaded)
    ensures Inv(Cascaded(w), loc)
  {
    FiledEntry(w, loc, Cascaded(w));
    hide Filed;
  }
}
