/** The round-robin scheduler of the boot CPU. */
module Sched {
  import opened DList

  datatype TState = Ready | Running | Blocked | Dead

  /** Who may run: `current` has the CPU, `queue` is the ready queue. */
  datatype State = State(state: map<Ptr, TState>, queue: seq<Ptr>, current: Ptr, idle: Ptr)

  // ----- steps -----

  ghost function SwitchTo(s: State, t: Ptr): State { s.(state := s.state[t := Running], current := t) }

  /** One scheduling decision. */
  ghost function Schedule(s: State): State {
    if s.queue != [] then SwitchTo(s.(queue := s.queue[1..]), s.queue[0])
    else if s.current in s.state && s.state[s.current] == Running then s
    else if s.idle == NULL then s
    else SwitchTo(s, s.idle)
  }

  ghost function Push(s: State, t: Ptr): State { s.(queue := s.queue + [t]) }

  ghost function Yield(s: State): State { Schedule(Push(s, s.current)) }

  ghost function Block(s: State): State { Schedule(s.(state := s.state[s.current := Blocked])) }

  ghost function Finish(s: State): State { Schedule(s.(state := s.state[s.current := Dead])) }

  ghost function Wake(s: State, t: Ptr): State {
    if t in s.state && s.state[t] == Blocked then Push(s.(state := s.state[t := Ready]), t) else s
  }

  ghost function Preempt(s: State): State {
    if s.current in s.state && s.state[s.current] == Running
    then Schedule(Push(s.(state := s.state[s.current := Ready]), s.current))
    else Schedule(s)
  }

  ghost function Enqueue(s: State, t: Ptr): State { Push(s.(state := s.state[t := Ready]), t) }

  /** The boot path gives the CPU to the head of the queue and is never resumed. */
  ghost function Start(s: State): State
    requires s.queue != []
  {
    SwitchTo(s.(queue := s.queue[1..]), s.queue[0])
  }

  // ----- invariant -----

  ghost predicate Inv(s: State) {
    && NoDup(s.queue) && NULL !in s.state
    && s.current in s.state && s.state[s.current] == Running && s.current !in s.queue
    && s.idle in s.state && (s.idle == s.current || s.idle in s.queue)
    && (forall t :: t in s.queue ==> t in s.state && (s.state[t] == Ready || s.state[t] == Running))
    && (forall t :: t in s.state && s.state[t] == Ready ==> t in s.queue)
  }

  /** What holds just before a scheduling decision: the running task has been queued,
      blocked or ended. */
  ghost predicate Deciding(s: State) {
    && NoDup(s.queue) && s.queue != [] && NULL !in s.state
    && s.idle in s.state && s.idle in s.queue
    && (forall t :: t in s.queue ==> t in s.state && (s.state[t] == Ready || s.state[t] == Running))
    && (forall t :: t in s.state && s.state[t] == Ready ==> t in s.queue)
  }

  lemma TailMembers(q: seq<Ptr>)
    requires q != [] && NoDup(q)
    ensures NoDup(q[1..]) && q[0] !in q[1..] && forall t :: t in q <==> t == q[0] || t in q[1..]
  {
  }

  lemma DecideInv(s: State)
    requires Deciding(s)
    ensures Inv(Schedule(s))
  {
    TailMembers(s.queue);
  }

  lemma YieldInv(s: State)
    requires Inv(s)
    ensures Inv(Yield(s))
  {
    DecideInv(Push(s, s.current));
  }

  lemma BlockInv(s: State)
    requires Inv(s) && s.current != s.idle
    ensures Inv(Block(s)) && s.queue != [] && Block(s).current == s.queue[0] && Block(s).queue == s.queue[1..]
    ensures Block(s).state == s.state[s.current := Blocked][s.queue[0] := Running]
  {
    DecideInv(s.(state := s.state[s.current := Blocked]));
  }

  lemma FinishInv(s: State)
    requires Inv(s) && s.current != s.idle
    ensures Inv(Finish(s))
  {
    DecideInv(s.(state := s.state[s.current := Dead]));
  }

  lemma WakeInv(s: State, t: Ptr)
    requires Inv(s)
    ensures Inv(Wake(s, t))
  {
  }

  lemma PreemptInv(s: State)
    requires Inv(s)
    ensures Inv(Preempt(s))
  {
    DecideInv(Push(s.(state := s.state[s.current := Ready]), s.current));
  }

  lemma EnqueueInv(s: State, t: Ptr)
    requires Inv(s) && t !in s.state && t != NULL
    ensures Inv(Enqueue(s, t))
  {
  }

  lemma StartInv(s: State)
    requires Deciding(s)
    ensures Inv(Start(s))
  {
    DecideInv(s);
  }

  /** A preemption that hits between the two halves of a yield breaks the invariant in every
      state: the yielder is queued twice, or queued while it runs. Yield is correct only as one step. */
  lemma InterruptedYieldQueuesTwice(s: State)
    requires Inv(s)
    ensures var t := Preempt(Push(s, s.current));
            && !Inv(t) && (if s.queue == [] then t.current in t.queue else !NoDup(t.queue))
  {
    var mid := Push(s, s.current);
    var q := (mid.queue + [s.current])[1..];
    assert q[|s.queue|] == s.current;
    assert s.queue != [] ==> q[|s.queue| - 1] == s.current;
  }

  // ----- fairness over runs -----

  datatype Op = OpYield | OpBlock | OpFinish | OpPreempt | OpWake(t: Ptr) | OpEnqueue(t: Ptr)

  predicate Decides(op: Op) { op.OpYield? || op.OpBlock? || op.OpFinish? || op.OpPreempt? }

  ghost predicate Allowed(s: State, op: Op) {
    match op
    case OpBlock => s.current != s.idle
    case OpFinish => s.current != s.idle
    case OpEnqueue(t) => t !in s.state && t != NULL
    case _ => true
  }

  ghost function Apply(s: State, op: Op): State {
    match op
    case OpYield => Yield(s)
    case OpBlock => Block(s)
    case OpFinish => Finish(s)
    case OpPreempt => Preempt(s)
    case OpWake(t) => Wake(s, t)
    case OpEnqueue(t) => Enqueue(s, t)
  }

  lemma ApplyInv(s: State, op: Op)
    requires Inv(s) && Allowed(s, op)
    ensures Inv(Apply(s, op))
  {
    match op
    case OpYield => YieldInv(s);
    case OpBlock => BlockInv(s);
    case OpFinish => FinishInv(s);
    case OpPreempt => PreemptInv(s);
    case OpWake(t) => WakeInv(s, t);
    case OpEnqueue(t) => EnqueueInv(s, t);
  }

  ghost predicate Run(trace: seq<State>, ops: seq<Op>) {
    && |trace| == |ops| + 1
    && forall i :: 0 <= i < |ops| ==> Allowed(trace[i], ops[i]) && trace[i + 1] == Apply(trace[i], ops[i])
  }

  function Decisions(ops: seq<Op>): nat {
    if ops == [] then 0 else Decisions(ops[..|ops| - 1]) + if Decides(ops[|ops| - 1]) then 1 else 0
  }

  lemma {:induction false} RunInv(trace: seq<State>, ops: seq<Op>)
    requires Run(trace, ops) && Inv(trace[0])
    ensures forall i :: 0 <= i < |trace| ==> Inv(trace[i])
  {
    if ops != [] {
      var n := |ops| - 1;
      RunInv(trace[..n + 1], ops[..n]);
      assert Inv(trace[..n + 1][n]);
      ApplyInv(trace[n], ops[n]);
      forall i | 0 <= i < |trace|
        ensures Inv(trace[i])
      {
        assert i <= n ==> trace[i] == trace[..n + 1][i];
      }
    }
  }

  /** A decision gives the CPU to the head and moves everyone else up one place; other
      operations move nobody. */
  lemma QueueMoves(s: State, op: Op, k: nat)
    requires Inv(s) && Allowed(s, op) && k < |s.queue|
    ensures var s' := Apply(s, op);
            if !Decides(op) then k < |s'.queue| && s'.queue[k] == s.queue[k]
            else if k == 0 then s'.current == s.queue[0]
            else k - 1 < |s'.queue| && s'.queue[k - 1] == s.queue[k]
  {
  }

  /** Round robin: whoever is at position `k` has had the CPU after `k + 1` decisions. */
  lemma {:induction false} DispatchedInTurn(trace: seq<State>, ops: seq<Op>, k: nat)
    requires Run(trace, ops) && Inv(trace[0]) && k < |trace[0].queue| && k < Decisions(ops)
    ensures exists i :: 0 < i < |trace| && trace[i].current == trace[0].queue[k]
  {
    var i := DispatchedAt(trace, ops, k);
  }

  lemma {:induction false} DispatchedAt(trace: seq<State>, ops: seq<Op>, k: nat) returns (i: nat)
    requires Run(trace, ops) && Inv(trace[0]) && k < |trace[0].queue| && k < Decisions(ops)
    ensures 0 < i < |trace| && trace[i].current == trace[0].queue[k]
    decreases |ops|
  {
    DecisionsFront(ops);
    QueueMoves(trace[0], ops[0], k);
    ApplyInv(trace[0], ops[0]);
    if Decides(ops[0]) && k == 0 {
      i := 1;
    } else {
      var rest, more := trace[1..], ops[1..];
      forall j | 0 <= j < |more|
        ensures Allowed(rest[j], more[j]) && rest[j + 1] == Apply(rest[j], more[j])
      {
        assert rest[j] == trace[j + 1] && more[j] == ops[j + 1];
      }
      var j := DispatchedAt(rest, more, if Decides(ops[0]) then k - 1 else k);
      i := j + 1;
    }
  }

  lemma {:induction false} DecisionsFront(ops: seq<Op>)
    ensures ops == [] ==> Decisions(ops) == 0
    ensures ops != [] ==> Decisions(ops) == (if Decides(ops[0]) then 1 else 0) + Decisions(ops[1..])
    decreases |ops|
  {
    if |ops| == 1 {
      assert ops[..0] == [] && ops[1..] == [];
    } else if |ops| > 1 {
      var n := |ops| - 1;
      DecisionsFront(ops[..n]);
      assert ops[..n][1..] == ops[1..][..n - 1];
    }
  }
}
