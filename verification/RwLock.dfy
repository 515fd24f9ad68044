/** The reader-writer lock as interleavings of single atomic operations. */
module RwLock {

  type Tid = nat

  /** `Trying(s)` has loaded `s` and is about to swap it for `s + 1`. */
  datatype Thread = Outside | Trying(s: int) | Reader | Writer

  datatype State = State(word: int, threads: map<Tid, Thread>)

  datatype Op =
    | ReadLoad(t: Tid)
    | ReadSwap(t: Tid)
    | ReadUnlock(t: Tid)
    | WriteSwap(t: Tid)
    | WriteUnlock(t: Tid)

  predicate Is(s: State, t: Tid, k: Thread) { t in s.threads && s.threads[t] == k }

  predicate Enabled(s: State, op: Op) {
    match op
    case ReadLoad(t) => Is(s, t, Outside)
    case ReadSwap(t) => t in s.threads && s.threads[t].Trying?
    case ReadUnlock(t) => Is(s, t, Reader)
    case WriteSwap(t) => Is(s, t, Outside)
    case WriteUnlock(t) => Is(s, t, Writer)
  }

  function Apply(s: State, op: Op): State
    requires Enabled(s, op)
  {
    match op
    case ReadLoad(t) => if s.word >= 0 then s.(threads := s.threads[t := Trying(s.word)]) else s
    case ReadSwap(t) =>
      if s.word == s.threads[t].s then State(s.word + 1, s.threads[t := Reader])
      else s.(threads := s.threads[t := Outside])
    case ReadUnlock(t) => State(s.word - 1, s.threads[t := Outside])
    case WriteSwap(t) => if s.word == 0 then State(-1, s.threads[t := Writer]) else s
    case WriteUnlock(t) => State(0, s.threads[t := Outside])
  }

  ghost function Readers(threads: map<Tid, Thread>): set<Tid> { set t | t in threads && threads[t] == Reader }

  ghost function Writers(threads: map<Tid, Thread>): set<Tid> { set t | t in threads && threads[t] == Writer }

  /** The word counts the readers, or is -1 while the one writer is inside. */
  ghost predicate Inv(s: State) {
    && (forall t :: t in s.threads && s.threads[t].Trying? ==> s.threads[t].s >= 0)
    && if s.word >= 0 then Writers(s.threads) == {} && |Readers(s.threads)| == s.word
       else s.word == -1 && Readers(s.threads) == {} && |Writers(s.threads)| == 1
  }

  /** What changing one thread does to the two sets. */
  lemma SetsAfter(threads: map<Tid, Thread>, t: Tid, k: Thread)
    requires t in threads
    ensures Readers(threads[t := k]) == if k == Reader then Readers(threads) + {t} else Readers(threads) - {t}
    ensures Writers(threads[t := k]) == if k == Writer then Writers(threads) + {t} else Writers(threads) - {t}
    ensures t in Readers(threads) <==> threads[t] == Reader
    ensures t in Writers(threads) <==> threads[t] == Writer
  {
  }

  lemma ReadLoadInv(s: State, t: Tid)
    requires Inv(s) && Enabled(s, ReadLoad(t))
    ensures Inv(Apply(s, ReadLoad(t)))
  {
    SetsAfter(s.threads, t, Trying(s.word));
    assert Readers(s.threads) - {t} == Readers(s.threads) && Writers(s.threads) - {t} == Writers(s.threads);
  }

  lemma ReadSwapInv(s: State, t: Tid)
    requires Inv(s) && Enabled(s, ReadSwap(t))
    ensures Inv(Apply(s, ReadSwap(t)))
  {
    hide Readers;
    hide Writers;
    var rs, ws := Readers(s.threads), Writers(s.threads);
    if s.word == s.threads[t].s {
      SetsAfter(s.threads, t, Reader);
      assert ws == {} && t !in rs;
      assert |rs + {t}| == |rs| + 1;
    } else {
      SetsAfter(s.threads, t, Outside);
      assert rs - {t} == rs && ws - {t} == ws;
    }
  }

  lemma ReadUnlockInv(s: State, t: Tid)
    requires Inv(s) && Enabled(s, ReadUnlock(t))
    ensures Inv(Apply(s, ReadUnlock(t)))
  {
    SetsAfter(s.threads, t, Outside);
    assert Writers(s.threads) - {t} == Writers(s.threads);
  }

  lemma WriteSwapInv(s: State, t: Tid)
    requires Inv(s) && Enabled(s, WriteSwap(t))
    ensures Inv(Apply(s, WriteSwap(t)))
  {
    SetsAfter(s.threads, t, Writer);
    if s.word == 0 {
      assert Readers(s.threads) == {};
      assert Writers(s.threads) + {t} == {t};
    }
  }

  lemma WriteUnlockInv(s: State, t: Tid)
    requires Inv(s) && Enabled(s, WriteUnlock(t))
    ensures Inv(Apply(s, WriteUnlock(t)))
  {
    SetsAfter(s.threads, t, Outside);
    Alone(Writers(s.threads), t);
    assert Writers(s.threads) - {t} == {};
  }

  lemma StepInv(s: State, op: Op)
    requires Inv(s) && Enabled(s, op)
    ensures Inv(Apply(s, op))
  {
    hide Inv;
    hide Apply;
    match op
    case ReadLoad(t) => ReadLoadInv(s, t);
    case ReadSwap(t) => ReadSwapInv(s, t);
    case ReadUnlock(t) => ReadUnlockInv(s, t);
    case WriteSwap(t) => WriteSwapInv(s, t);
    case WriteUnlock(t) => WriteUnlockInv(s, t);
  }

  lemma Alone(w: set<Tid>, t: Tid)
    requires |w| == 1 && t in w
    ensures w == {t}
  {
    assert |w - {t}| == 0;
  }

  ghost predicate Start(s: State) { s.word == 0 && forall t :: t in s.threads ==> s.threads[t] == Outside }

  ghost predicate Run(trace: seq<State>, ops: seq<Op>) {
    && |trace| == |ops| + 1 && Start(trace[0])
    && forall i :: 0 <= i < |ops| ==> Enabled(trace[i], ops[i]) && trace[i + 1] == Apply(trace[i], ops[i])
  }

  lemma {:induction false} RunInv(trace: seq<State>, ops: seq<Op>, n: nat)
    requires Run(trace, ops) && n < |trace|
    ensures Inv(trace[n])
  {
    if n == 0 {
      assert Readers(trace[0].threads) == {} && Writers(trace[0].threads) == {};
    } else {
      RunInv(trace, ops, n - 1);
      assert Enabled(trace[n - 1], ops[n - 1]) && trace[n - 1 + 1] == Apply(trace[n - 1], ops[n - 1]);
      StepInv(trace[n - 1], ops[n - 1]);
    }
  }

  /** In every interleaving a writer is alone inside. */
  lemma WriterExcludesAll(trace: seq<State>, ops: seq<Op>, n: nat, t: Tid, u: Tid)
    requires Run(trace, ops) && n < |trace| && Is(trace[n], t, Writer) && u in trace[n].threads && u != t
    ensures trace[n].threads[u] != Writer && trace[n].threads[u] != Reader
  {
    RunInv(trace, ops, n);
    var s := trace[n];
    assert t in Writers(s.threads);
    Alone(Writers(s.threads), t);
    assert u !in Writers(s.threads) && u !in Readers(s.threads);
  }

  /** A try to write succeeds exactly when nobody is inside. */
  lemma TryWriteIff(trace: seq<State>, ops: seq<Op>, n: nat, t: Tid)
    requires Run(trace, ops) && n < |trace| && Enabled(trace[n], WriteSwap(t))
    ensures Is(Apply(trace[n], WriteSwap(t)), t, Writer) <==>
              forall u :: u in trace[n].threads ==> trace[n].threads[u] != Reader && trace[n].threads[u] != Writer
  {
    RunInv(trace, ops, n);
    var s := trace[n];
    assert forall u :: u in s.threads ==>
             (s.threads[u] == Reader ==> u in Readers(s.threads)) && (s.threads[u] == Writer ==> u in Writers(s.threads));
    if s.word == 0 {
      assert Readers(s.threads) == {};
    } else if s.word > 0 {
      var u :| u in Readers(s.threads);
    } else {
      var u :| u in Writers(s.threads);
    }
  }

  /** The word stays within the number of threads, so 32 bits do for fewer than 2^31 of them. */
  lemma WordBounded(trace: seq<State>, ops: seq<Op>, n: nat)
    requires Run(trace, ops) && n < |trace|
    ensures -1 <= trace[n].word <= |trace[n].threads.Keys|
  {
    RunInv(trace, ops, n);
    var s := trace[n];
    if s.word >= 0 {
      SubsetSize(Readers(s.threads), s.threads.Keys);
    }
  }

  lemma {:induction false} SubsetSize(a: set<Tid>, b: set<Tid>)
    requires a <= b
    ensures |a| <= |b|
    decreases |a|
  {
    if a != {} {
      var x :| x in a;
      SubsetSize(a - {x}, b - {x});
    }
  }
}
