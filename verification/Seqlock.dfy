/** The sequence lock as interleavings of single loads and stores by any number of readers and
    writers. Beginning to write does not look whether somebody else is writing. */
module Seqlock {

  type Tid = nat
  type Data = map<nat, int>

  /** The counter has 64 bits. */
  const WRAP: nat := 0x1_0000_0000_0000_0000

  datatype Writer =
    | Away
    | Loaded(s: nat)
    | Writing
    | Ending(s: nat)

  /** `s` is the counter value read first, `got` what has been read so far. */
  datatype Reader =
    | Out
    | Reading(s: nat, got: Data, since: nat)
    | Done(got: Data, since: nat)

  /** `count` is how often the counter was stored to; `history` lists the data as each completed
      write left it, the initial data first. */
  datatype State = State(seqno: nat, data: Data, writers: map<Tid, Writer>, readers: map<Tid, Reader>, count: nat,
                         history: seq<Data>)

  datatype Op =
    | WriteLoad(t: Tid)
    | WriteSwap(t: Tid)
    | Store(t: Tid, i: nat, v: int)
    | EndLoad(t: Tid)
    | EndStore(t: Tid)
    | ReadBegin(t: Tid)
    | Load(t: Tid, i: nat)
    | ReadRetry(t: Tid)

  predicate Enabled(s: State, op: Op) {
    match op
    case WriteLoad(t) => t in s.writers && s.writers[t] == Away
    case WriteSwap(t) => t in s.writers && s.writers[t].Loaded?
    case Store(t, _, _) => t in s.writers && s.writers[t] == Writing
    case EndLoad(t) => t in s.writers && s.writers[t] == Writing
    case EndStore(t) => t in s.writers && s.writers[t].Ending?
    case ReadBegin(t) => t in s.readers && s.readers[t].Out?
    case Load(t, i) => t in s.readers && s.readers[t].Reading? && i in s.data
    case ReadRetry(t) => t in s.readers && s.readers[t].Reading?
  }

  predicate Swaps(s: State, t: Tid) { t in s.writers && s.writers[t] == Loaded(s.seqno) }

  /** A writer's compare-and-swap that finds another value takes that value and tries again. */
  function Apply(s: State, op: Op): State
    requires Enabled(s, op)
  {
    match op
    case WriteLoad(t) => s.(writers := s.writers[t := Loaded(s.seqno)])
    case WriteSwap(t) =>
      if Swaps(s, t) then s.(seqno := (s.seqno + 1) % WRAP, writers := s.writers[t := Writing], count := s.count + 1)
      else s.(writers := s.writers[t := Loaded(s.seqno)])
    case Store(t, i, v) => s.(data := s.data[i := v])
    case EndLoad(t) => s.(writers := s.writers[t := Ending(s.seqno)])
    case EndStore(t) =>
      s.(seqno := (s.writers[t].s + 1) % WRAP, writers := s.writers[t := Away], count := s.count + 1, history := s.history + [s.data])
    case ReadBegin(t) =>
      if s.seqno % 2 == 0 then s.(readers := s.readers[t := Reading(s.seqno, map[], s.count)]) else s
    case Load(t, i) =>
      var r := s.readers[t];
      s.(readers := s.readers[t := Reading(r.s, r.got[i := s.data[i]], r.since)])
    case ReadRetry(t) =>
      var r := s.readers[t];
      s.(readers := s.readers[t := if s.seqno != r.s then Out else Done(r.got, r.since)])
  }

  ghost predicate Start(s: State) {
    && s.seqno == 0 && s.count == 0 && s.history == [s.data]
    && (forall t :: t in s.writers ==> s.writers[t] == Away) && forall t :: t in s.readers ==> s.readers[t].Out?
  }

  ghost predicate Run(trace: seq<State>, ops: seq<Op>) {
    && |trace| == |ops| + 1 && Start(trace[0])
    && forall i :: 0 <= i < |ops| ==> Enabled(trace[i], ops[i]) && trace[i + 1] == Apply(trace[i], ops[i])
  }

  // ----- one writer at a time -----

  predicate Inside(s: State, t: Tid) { t in s.writers && (s.writers[t] == Writing || s.writers[t].Ending?) }

  ghost predicate Busy(s: State) { exists t :: Inside(s, t) }

  /** No writer begins while another is inside. */
  ghost predicate Polite(s: State, op: Op) { op.WriteSwap? && Swaps(s, op.t) ==> !Busy(s) }

  /** Everything in `got` comes from one version. */
  ghost predicate FromVersion(got: Data, version: Data) {
    forall i :: i in got ==> i in version && got[i] == version[i]
  }

  ghost predicate ReaderOk(s: State, r: Reader) {
    r.Reading? ==>
      && r.since <= s.count && r.since % 2 == 0 && r.s == r.since % WRAP && r.since / 2 < |s.history|
      && (s.count == r.since ==> FromVersion(r.got, s.history[r.since / 2]))
  }

  ghost predicate WritersOk(s: State) {
    && (s.count % 2 == 1 <==> Busy(s))
    && (forall t, u :: Inside(s, t) && Inside(s, u) ==> t == u)
    && (forall t :: t in s.writers && s.writers[t].Ending? ==> s.writers[t].s == s.seqno)
  }

  ghost predicate Inv(s: State) {
    && s.seqno == s.count % WRAP && |s.history| == s.count / 2 + 1 && WritersOk(s)
    && (s.count % 2 == 0 ==> s.data == s.history[s.count / 2])
    && forall t :: t in s.readers ==> ReaderOk(s, s.readers[t])
  }

  lemma CountParity(n: nat)
    ensures (n % WRAP) % 2 == n % 2 && (n % WRAP + 1) % WRAP == (n + 1) % WRAP
  {
  }

  lemma StepWriters(s: State, op: Op)
    requires Inv(s) && Enabled(s, op) && Polite(s, op)
    ensures WritersOk(Apply(s, op))
  {
    var s' := Apply(s, op);
    match op
    case WriteSwap(t) =>
      if Swaps(s, t) {
        assert forall u :: !Inside(s, u);
        assert Inside(s', t);
        forall u | u in s'.writers && u != t
          ensures !Inside(s', u) && !s'.writers[u].Ending?
        {
          assert !Inside(s, u);
        }
      } else {
        SameInside(s, s');
      }
    case EndLoad(t) =>
      assert Inside(s, t) && Inside(s', t);
      SameInside(s, s');
    case EndStore(t) =>
      assert Inside(s, t);
      forall u | u in s'.writers
        ensures !Inside(s', u) && !s'.writers[u].Ending?
      {
        assert Inside(s, u) ==> u == t;
      }
      assert !Busy(s');
    case _ => SameInside(s, s');
  }

  lemma SameInside(s: State, s': State)
    requires forall t :: Inside(s', t) == Inside(s, t)
    ensures Busy(s') == Busy(s)
  {
    if Busy(s) {
      var t :| Inside(s, t);
      assert Inside(s', t);
    }
  }

  lemma StepInv(s: State, op: Op)
    requires Inv(s) && Enabled(s, op) && Polite(s, op)
    ensures Inv(Apply(s, op))
  {
    CountParity(s.count);
    StepWriters(s, op);
    StepReaders(s, op);
    hide WritersOk;
    hide ReaderOk;
    hide Polite;
  }

  lemma StepReaders(s: State, op: Op)
    requires Inv(s) && Enabled(s, op)
    ensures forall t :: t in Apply(s, op).readers ==> ReaderOk(Apply(s, op), Apply(s, op).readers[t])
    ensures op.EndStore? || op.Store? ==> s.count % 2 == 1
  {
    CountParity(s.count);
    var s' := Apply(s, op);
    if op.EndStore? || op.Store? {
      assert Inside(s, op.t);
    }
    forall t | t in s'.readers
      ensures ReaderOk(s', s'.readers[t])
    {
      assert t in s.readers && ReaderOk(s, s.readers[t]);
    }
  }

  ghost predicate PoliteRun(trace: seq<State>, ops: seq<Op>, n: nat) {
    Run(trace, ops) && n <= |ops| && forall i :: 0 <= i < n ==> Polite(trace[i], ops[i])
  }

  lemma {:induction false} RunInv(trace: seq<State>, ops: seq<Op>, n: nat)
    requires PoliteRun(trace, ops, n)
    ensures Inv(trace[n])
  {
    if n > 0 {
      RunInv(trace, ops, n - 1);
      assert Enabled(trace[n - 1], ops[n - 1]) && trace[n - 1 + 1] == Apply(trace[n - 1], ops[n - 1]);
      StepInv(trace[n - 1], ops[n - 1]);
    } else {
      assert !Busy(trace[0]);
    }
  }

  // ----- what a reader may rely on -----

  /** The counter has not gone once round since the reader began. */
  predicate NoLap(s: State, r: Reader)
    requires r.Reading?
  {
    s.count - r.since < WRAP
  }

  lemma SameResidue(a: nat, b: nat)
    requires a <= b < a + WRAP && a % WRAP == b % WRAP
    ensures a == b
  {
  }

  /** In every interleaving in which writers take turns, a reader that is not told to retry has
      read every word from the version that was complete when it began and still is. */
  lemma ReadsOneVersion(trace: seq<State>, ops: seq<Op>, n: nat, t: Tid)
    requires n < |ops| && PoliteRun(trace, ops, n) && ops[n] == ReadRetry(t)
    requires NoLap(trace[n], trace[n].readers[t]) && trace[n + 1].readers[t].Done?
    ensures var r := trace[n].readers[t];
            && r.since == trace[n].count && trace[n].count % 2 == 0 && trace[n].count / 2 < |trace[n].history|
            && FromVersion(trace[n + 1].readers[t].got, trace[n].history[trace[n].count / 2])
  {
    RunInv(trace, ops, n);
    assert Enabled(trace[n], ops[n]) && trace[n + 1] == Apply(trace[n], ops[n]);
    var s := trace[n];
    assert ReaderOk(s, s.readers[t]);
    SameResidue(s.readers[t].since, s.count);
  }

  /** The reader is let through exactly if the counter has been increased a multiple of 2^64
      times: not at all, or once round. */
  lemma LetThroughIff(s: State, t: Tid)
    requires Inv(s) && Enabled(s, ReadRetry(t))
    ensures Apply(s, ReadRetry(t)).readers[t].Done? <==> (s.count - s.readers[t].since) % WRAP == 0
  {
    assert ReaderOk(s, s.readers[t]);
  }

  // ----- a second writer -----

  /** Larger than word `j` of every version. */
  function Unseen(history: seq<Data>, j: nat): (v: int)
    ensures forall k :: 0 <= k < |history| && j in history[k] ==> history[k][j] < v
  {
    if history == [] then 0
    else
      var v, last := Unseen(history[..|history| - 1], j), history[|history| - 1];
      if j in last && last[j] >= v then last[j] + 1 else v
  }

  /** The second writer has begun; a reader then reads one word before and one word after the
      writer changes it. */
  function TearOps(t: Tid, r: Tid, i: nat, j: nat, v: int): seq<Op> {
    [WriteSwap(t), ReadBegin(r), Load(r, i), Store(t, j, v), Load(r, j), ReadRetry(r)]
  }

  ghost predicate Leads(s: State, ops: seq<Op>, s': State)
    decreases |ops|
  {
    if ops == [] then s == s' else Enabled(s, ops[0]) && Leads(Apply(s, ops[0]), ops[1..], s')
  }

  lemma LeadsStep(s: State, op: Op, ops: seq<Op>, s': State)
    requires Enabled(s, op) && Leads(Apply(s, op), ops, s')
    ensures Leads(s, [op] + ops, s')
  {
    assert ([op] + ops)[1..] == ops;
  }

  /** No completed version has the words that the reader was given. */
  ghost predicate Torn(s: State, r: Tid) {
    && r in s.readers && s.readers[r].Done?
    && forall k :: 0 <= k < |s.history| ==> !FromVersion(s.readers[r].got, s.history[k])
  }

  /** While the counter is even again, the reader is let through. */
  lemma TearLeads(s: State, t: Tid, r: Tid, i: nat, j: nat, v: int) returns (s': State)
    requires Swaps(s, t) && (s.seqno + 1) % WRAP % 2 == 0
    requires r in s.readers && s.readers[r].Out? && i in s.data && j in s.data && i != j
    ensures Leads(s, TearOps(t, r, i, j, v), s') && s'.history == s.history
    ensures r in s'.readers && s'.readers[r].Done? && s'.readers[r].got == map[i := s.data[i], j := v]
  {
    var s1 := Apply(s, WriteSwap(t));
    var s2 := Apply(s1, ReadBegin(r));
    var s3 := Apply(s2, Load(r, i));
    var s4 := Apply(s3, Store(t, j, v));
    var s5 := Apply(s4, Load(r, j));
    s' := Apply(s5, ReadRetry(r));
    hide Apply;
    LeadsStep(s5, ReadRetry(r), [], s');
    LeadsStep(s4, Load(r, j), [ReadRetry(r)], s');
    LeadsStep(s3, Store(t, j, v), [Load(r, j), ReadRetry(r)], s');
    LeadsStep(s2, Load(r, i), [Store(t, j, v), Load(r, j), ReadRetry(r)], s');
    LeadsStep(s1, ReadBegin(r), [Load(r, i), Store(t, j, v), Load(r, j), ReadRetry(r)], s');
    LeadsStep(s, WriteSwap(t), [ReadBegin(r), Load(r, i), Store(t, j, v), Load(r, j), ReadRetry(r)], s');
    assert TearOps(t, r, i, j, v) == [WriteSwap(t)] + [ReadBegin(r), Load(r, i), Store(t, j, v), Load(r, j), ReadRetry(r)];
  }

  /** A writer that begins while another is inside opens the door: from there a reader can be let
      through with a word as it was and a word of an unfinished write. */
  lemma SecondWriterTears(s: State, t: Tid, r: Tid, i: nat, j: nat) returns (v: int, s': State)
    requires Inv(s) && Swaps(s, t) && !Polite(s, WriteSwap(t))
    requires r in s.readers && s.readers[r].Out? && i in s.data && j in s.data && i != j
    ensures Leads(s, TearOps(t, r, i, j, v), s') && Torn(s', r)
    ensures s'.readers[r].got == map[i := s.data[i], j := v] && s'.history == s.history
  {
    v := Unseen(s.history, j);
    CountParity(s.count);
    CountParity(s.count + 1);
    s' := TearLeads(s, t, r, i, j, v);
    forall k | 0 <= k < |s.history|
      ensures !FromVersion(s'.readers[r].got, s.history[k])
    {
      assert j in s'.readers[r].got;
    }
  }

  /** So readers are safe exactly while writers take turns: the first one that does not makes a
      torn read possible. */
  lemma FirstIntruderTears(trace: seq<State>, ops: seq<Op>, n: nat, r: Tid, i: nat, j: nat) returns (v: int, s': State)
    requires n < |ops| && PoliteRun(trace, ops, n) && !Polite(trace[n], ops[n])
    requires r in trace[n].readers && trace[n].readers[r].Out? && i in trace[n].data && j in trace[n].data && i != j
    ensures ops[n].WriteSwap? && Leads(trace[n], TearOps(ops[n].t, r, i, j, v), s') && Torn(s', r)
  {
    RunInv(trace, ops, n);
    v, s' := SecondWriterTears(trace[n], ops[n].t, r, i, j);
  }

  /** Two writers and a reader, from the start. */
  lemma TornFromStart(s: State, t: Tid, u: Tid, r: Tid, i: nat, j: nat) returns (ops: seq<Op>, s': State)
    requires Start(s) && t in s.writers && u in s.writers && t != u && r in s.readers && i in s.data && j in s.data && i != j
    ensures Leads(s, ops, s') && Torn(s', r)
  {
    assert !Busy(s) && Inv(s);
    var s1 := Apply(s, WriteLoad(u));
    StepInv(s, WriteLoad(u));
    assert !Busy(s1);
    var s2 := Apply(s1, WriteSwap(u));
    StepInv(s1, WriteSwap(u));
    var s3 := Apply(s2, WriteLoad(t));
    StepInv(s2, WriteLoad(t));
    assert Inside(s3, u);
    var v;
    v, s' := SecondWriterTears(s3, t, r, i, j);
    ops := TearOps(t, r, i, j, v);
    LeadsStep(s2, WriteLoad(t), ops, s');
    ops := [WriteLoad(t)] + ops;
    LeadsStep(s1, WriteSwap(u), ops, s');
    ops := [WriteSwap(u)] + ops;
    LeadsStep(s, WriteLoad(u), ops, s');
    ops := [WriteLoad(u)] + ops;
  }
}
