/** The parallel check queue of checkqueue.h: one master and any number of workers over a mutex and two
    condition variables.  Each critical section is one step, and between them each check is one step, so a
    run is any interleaving. */
module CheckQueue {
  /** A verification; `ok` is what calling it answers. */
  datatype Check = Check(id: nat, ok: bool)

  predicate AllOk(cs: seq<Check>) { forall i :: 0 <= i < |cs| ==> cs[i].ok }

  /** The fields the mutex protects. */
  datatype Shared = Shared(queue: seq<Check>, nTodo: int, nIdle: int, nTotal: int, fAllOk: bool, nBatchSize: nat)

  /** What a critical section of Loop ends with. */
  datatype Decision = Return(result: bool) | Sleep | Take(batch: seq<Check>, fOk: bool)

  /** How many checks to take: smaller batches as the queue drains, never none. */
  function BatchSize(q: Shared): (n: nat)
    requires q.queue != [] && q.nIdle >= 0 && q.nTotal >= 0
    ensures 1 <= n <= |q.queue|
    ensures q.nBatchSize >= 1 ==> n <= q.nBatchSize
  {
    var share := |q.queue| / (q.nTotal + q.nIdle + 1);
    assert share <= |q.queue|;
    var n := if q.nBatchSize < share then q.nBatchSize else share;
    if n < 1 then 1 else n
  }

  /** The last n checks, last first. */
  function Taken(queue: seq<Check>, n: nat): (batch: seq<Check>)
    requires n <= |queue|
    ensures |batch| == n && forall i :: 0 <= i < n ==> batch[i] == queue[|queue| - 1 - i]
  {
    seq(n, i requires 0 <= i < n => queue[|queue| - 1 - i])
  }

  /** The clean-up of the previous round, or the registration of a thread that has had none. */
  function CleanUp(q: Shared, nNow: nat, fOk: bool): Shared {
    if nNow != 0 then q.(fAllOk := q.fAllOk && fOk, nTodo := q.nTodo - nNow)
    else q.(nTotal := q.nTotal + 1)
  }

  /** The head of the loop: return, go to sleep, or take a batch. */
  function Head(q: Shared, fMaster: bool): (Shared, Decision)
    requires q.nIdle >= 0 && q.nTotal >= 0
  {
    if q.queue == [] then
      if fMaster && q.nTodo == 0 then (q.(nTotal := q.nTotal - 1, fAllOk := true), Return(q.fAllOk))
      else (q.(nIdle := q.nIdle + 1), Sleep)
    else
      var n := BatchSize(q);
      (q.(queue := q.queue[..|q.queue| - n]), Take(Taken(q.queue, n), q.fAllOk))
  }

  function Pushed(q: Shared, checks: seq<Check>): Shared {
    q.(queue := q.queue + checks, nTodo := q.nTodo + |checks|)
  }

  // ---------------------------------------------------------------------------------------------
  // The machine
  // ---------------------------------------------------------------------------------------------

  /** Where a thread is: not in Loop, about to enter it, waiting on its condition variable, or working through
      a batch of which the first `done` checks have been considered. */
  datatype Thread = Outside | Start | Asleep(notified: bool) | Working(batch: seq<Check>, done: nat, fOk: bool)

  datatype Outcome = Outcome(session: seq<Check>, result: bool)

  /** Thread 0 is the master.  `session` holds the checks added since Wait last returned, `finished` those whose
      result has been merged, and `outcomes` what each Wait returned. */
  datatype Machine = Machine(q: Shared, threads: seq<Thread>, session: seq<Check>, finished: multiset<Check>,
                             outcomes: seq<Outcome>)

  /** `Add` is called by the master, outside Wait; a batch of one wakes the worker `pick`. */
  datatype Op = Spawn | Add(checks: seq<Check>, pick: nat) | EnterWait | Lock(i: nat) | RunCheck(i: nat) | Wake(i: nat)

  predicate SleepsUnnotified(m: Machine, i: nat) { 0 < i < |m.threads| && m.threads[i] == Asleep(false) }

  ghost predicate Enabled(m: Machine, op: Op) {
    |m.threads| > 0 &&
    match op
    case Spawn => true
    case Add(checks, pick) =>
      m.threads[0] == Outside &&
      (|checks| == 1 && (exists i: nat :: SleepsUnnotified(m, i)) ==> SleepsUnnotified(m, pick))
    case EnterWait => m.threads[0] == Outside
    case Lock(i) =>
      i < |m.threads| && (m.threads[i].Start? || (m.threads[i].Working? && m.threads[i].done == |m.threads[i].batch|))
    case RunCheck(i) => i < |m.threads| && m.threads[i].Working? && m.threads[i].done < |m.threads[i].batch|
    case Wake(i) => i < |m.threads| && m.threads[i].Asleep?
  }

  /** A wake-up nobody asked for. */
  predicate Spurious(m: Machine, op: Op) {
    op.Wake? && op.i < |m.threads| && m.threads[op.i] == Asleep(false)
  }

  function Notify(t: Thread): Thread { if t.Asleep? then Asleep(true) else t }

  function NotifyAll(ts: seq<Thread>): seq<Thread>
    requires |ts| > 0
  {
    seq(|ts|, i requires 0 <= i < |ts| => if i == 0 then ts[0] else Notify(ts[i]))
  }

  function NotifyOne(ts: seq<Thread>, pick: nat): seq<Thread> {
    if 0 < pick < |ts| then ts[pick := Notify(ts[pick])] else ts
  }

  /** Thread i leaves its critical section with the given decision. */
  function Decide(m: Machine, i: nat, d: Decision): Machine
    requires i < |m.threads|
  {
    match d
    case Return(result) =>
      m.(threads := m.threads[i := Outside], session := [], finished := multiset{},
         outcomes := m.outcomes + [Outcome(m.session, result)])
    case Sleep => m.(threads := m.threads[i := Asleep(false)])
    case Take(batch, fOk) => m.(threads := m.threads[i := Working(batch, 0, fOk)])
  }

  function AtHead(m: Machine, i: nat): Machine
    requires i < |m.threads| && m.q.nIdle >= 0 && m.q.nTotal >= 0
  {
    var r := Head(m.q, i == 0);
    Decide(m.(q := r.0), i, r.1)
  }

  function NNow(t: Thread): nat { if t.Working? then |t.batch| else 0 }

  function Merged(m: Machine, i: nat): Machine
    requires i < |m.threads|
  {
    var t := m.threads[i];
    var q' := CleanUp(m.q, NNow(t), t.Working? && t.fOk);
    var ts := m.threads[i := Start];
    Machine(q', if NNow(t) != 0 && q'.nTodo == 0 && i != 0 then ts[0 := Notify(ts[0])] else ts,
            m.session, m.finished + Batch(t), m.outcomes)
  }

  function Ran(t: Thread): Thread
    requires t.Working? && t.done < |t.batch|
  {
    Working(t.batch, t.done + 1, if t.fOk then t.batch[t.done].ok else false)
  }

  predicate Sane(m: Machine) { |m.threads| > 0 && m.q.nIdle >= 0 && m.q.nTotal >= 0 }

  ghost function Step(m: Machine, op: Op): (m': Machine)
    requires Sane(m) && Enabled(m, op)
    requires op.Wake? ==> m.q.nIdle > 0
    ensures |m'.threads| > 0
  {
    match op
    case Spawn => m.(threads := m.threads + [Start])
    case Add(checks, pick) =>
      m.(q := Pushed(m.q, checks), session := m.session + checks,
         threads := if |checks| == 1 then NotifyOne(m.threads, pick)
                    else if |checks| > 1 then NotifyAll(m.threads) else m.threads)
    case EnterWait => m.(threads := m.threads[0 := Start])
    case Lock(i) => AtHead(Merged(m, i), i)
    case RunCheck(i) => m.(threads := m.threads[i := Ran(m.threads[i])])
    case Wake(i) => AtHead(m.(q := m.q.(nIdle := m.q.nIdle - 1), threads := m.threads[i := Start]), i)
  }

  // ---------------------------------------------------------------------------------------------
  // The invariant
  // ---------------------------------------------------------------------------------------------

  function Total(f: Thread -> nat, ts: seq<Thread>): nat {
    if ts == [] then 0 else Total(f, ts[..|ts| - 1]) + f(ts[|ts| - 1])
  }

  function Batch(t: Thread): multiset<Check> { if t.Working? then multiset(t.batch) else multiset{} }

  function Held(ts: seq<Thread>): multiset<Check> {
    if ts == [] then multiset{} else Held(ts[..|ts| - 1]) + Batch(ts[|ts| - 1])
  }

  function IsIdle(t: Thread): nat { if t.Asleep? then 1 else 0 }

  function IsIn(t: Thread): nat { if t.Asleep? || t.Working? then 1 else 0 }

  /** What a thread knows of its batch: fOk says that nothing has failed, neither before the batch was taken nor in
      the part already considered. */
  ghost predicate ThreadOk(t: Thread, fAllOk: bool) {
    t.Working? ==>
      && |t.batch| >= 1 && t.done <= |t.batch|
      && (t.fOk ==> AllOk(t.batch[..t.done]))
      && (!t.fOk ==> !fAllOk || !AllOk(t.batch))
  }

  ghost predicate ThreadsOk(ts: seq<Thread>, fAllOk: bool) {
    |ts| > 0 && (forall i :: 0 <= i < |ts| ==> ThreadOk(ts[i], fAllOk)) && forall i :: 0 < i < |ts| ==> ts[i] != Outside
  }

  /** The counters count. */
  ghost predicate CountersOk(q: Shared, ts: seq<Thread>) {
    q.nTodo == |q.queue| + Total(NNow, ts) && q.nIdle == Total(IsIdle, ts) && q.nTotal == Total(IsIn, ts)
  }

  ghost predicate Failed(finished: multiset<Check>) { exists c :: c in finished && !c.ok }

  /** Every check of the session is queued, held or finished, and fAllOk is the verdict on the finished ones. */
  ghost predicate SessionOk(m: Machine) {
    && Conserved(multiset(m.q.queue), Held(m.threads), m.finished, multiset(m.session))
    && (m.q.fAllOk <==> !Failed(m.finished))
  }

  ghost predicate Conserved(queued: multiset<Check>, held: multiset<Check>, finished: multiset<Check>,
                            session: multiset<Check>) {
    queued + held + finished == session
  }

  /** Checks move between the three places. */
  lemma ConservedMove(q: multiset<Check>, h: multiset<Check>, f: multiset<Check>, s: multiset<Check>,
                      q': multiset<Check>, h': multiset<Check>, f': multiset<Check>, b: multiset<Check>)
    requires Conserved(q, h, f, s)
    requires (q' + b == q && h' == h + b && f' == f) || (q' == q && h' + b == h && f' == f + b)
    ensures Conserved(q', h', f', s)
  {}

  lemma ConservedPush(q: multiset<Check>, h: multiset<Check>, f: multiset<Check>, s: multiset<Check>,
                      b: multiset<Check>)
    requires Conserved(q, h, f, s)
    ensures Conserved(q + b, h, f, s + b)
  {}

  /** A master that sleeps unnotified waits for checks that workers hold. */
  ghost predicate MasterOk(m: Machine)
    requires |m.threads| > 0
  {
    m.threads[0] == Asleep(false) ==> m.q.queue == [] && m.q.nTodo > 0
  }

  ghost predicate OutcomesOk(outcomes: seq<Outcome>) {
    forall i :: 0 <= i < |outcomes| ==> outcomes[i].result == AllOk(outcomes[i].session)
  }

  ghost predicate Inv(m: Machine) {
    && ThreadsOk(m.threads, m.q.fAllOk) && CountersOk(m.q, m.threads) && SessionOk(m) && MasterOk(m)
    && OutcomesOk(m.outcomes)
  }

  lemma {:induction false} TotalUpdate(f: Thread -> nat, ts: seq<Thread>, i: nat, t: Thread)
    requires i < |ts|
    ensures Total(f, ts[i := t]) == Total(f, ts) - f(ts[i]) + f(t)
  {
    var n := |ts| - 1;
    if i < n {
      assert ts[i := t][..n] == ts[..n][i := t];
      TotalUpdate(f, ts[..n], i, t);
    } else {
      assert ts[i := t][..n] == ts[..n];
    }
  }

  lemma {:induction false} TotalSame(f: Thread -> nat, ts: seq<Thread>, ts': seq<Thread>)
    requires |ts| == |ts'| && forall i :: 0 <= i < |ts| ==> f(ts[i]) == f(ts'[i])
    ensures Total(f, ts) == Total(f, ts')
  {
    if ts != [] { TotalSame(f, ts[..|ts| - 1], ts'[..|ts| - 1]); }
  }

  lemma {:induction false} TotalAtLeast(f: Thread -> nat, ts: seq<Thread>, i: nat)
    requires i < |ts|
    ensures Total(f, ts) >= f(ts[i])
  {
    if i < |ts| - 1 { TotalAtLeast(f, ts[..|ts| - 1], i); }
  }

  lemma {:induction false} SomeContributes(f: Thread -> nat, ts: seq<Thread>) returns (i: nat)
    requires Total(f, ts) > 0
    ensures i < |ts| && f(ts[i]) > 0
  {
    i := |ts| - 1;
    if f(ts[i]) == 0 { i := SomeContributes(f, ts[..|ts| - 1]); }
  }

  lemma {:induction false} HeldUpdate(ts: seq<Thread>, i: nat, t: Thread)
    requires i < |ts|
    ensures Held(ts[i := t]) + Batch(ts[i]) == Held(ts) + Batch(t)
  {
    var n := |ts| - 1;
    if i < n {
      assert ts[i := t][..n] == ts[..n][i := t];
      HeldUpdate(ts[..n], i, t);
      var rest := Held(ts[..n]);
      assert Held(ts[..n][i := t]) + Batch(ts[n]) + Batch(ts[i]) == rest + Batch(t) + Batch(ts[n]);
    } else {
      assert ts[i := t][..n] == ts[..n];
      assert Held(ts[..n]) + Batch(t) + Batch(ts[i]) == Held(ts[..n]) + Batch(ts[i]) + Batch(t);
    }
  }

  lemma {:induction false} HeldSame(ts: seq<Thread>, ts': seq<Thread>)
    requires |ts| == |ts'| && forall i :: 0 <= i < |ts| ==> Batch(ts[i]) == Batch(ts'[i])
    ensures Held(ts) == Held(ts')
  {
    if ts != [] { HeldSame(ts[..|ts| - 1], ts'[..|ts| - 1]); }
  }

  lemma {:induction false} NothingHeld(ts: seq<Thread>)
    requires Total(NNow, ts) == 0
    ensures Held(ts) == multiset{}
    ensures forall i :: 0 <= i < |ts| ==> NNow(ts[i]) == 0
  {
    if ts != [] { NothingHeld(ts[..|ts| - 1]); }
  }

  lemma {:induction false} TakenSplits(queue: seq<Check>, n: nat)
    requires n <= |queue|
    ensures multiset(Taken(queue, n)) + multiset(queue[..|queue| - n]) == multiset(queue)
  {
    if n == 0 {
      assert queue[..|queue|] == queue;
    } else {
      var k := |queue| - n;
      TakenSplits(queue, n - 1);
      assert Taken(queue, n) == Taken(queue, n - 1) + [queue[k]];
      assert queue[..k + 1] == queue[..k] + [queue[k]];
    }
  }

  // ---------------------------------------------------------------------------------------------
  // Every step keeps the invariant
  // ---------------------------------------------------------------------------------------------

  /** The invariant inside a critical section of thread i, which is registered but holds nothing. */
  ghost predicate InvAt(m: Machine, i: nat) {
    && i < |m.threads| && m.threads[i] == Start
    && ThreadsOk(m.threads, m.q.fAllOk) && CountersOk(m.q.(nTotal := m.q.nTotal - 1), m.threads)
    && SessionOk(m) && MasterOk(m) && OutcomesOk(m.outcomes)
  }

  /** All sums move by what one thread changes. */
  lemma SumsUpdate(ts: seq<Thread>, i: nat, t: Thread)
    requires i < |ts|
    ensures Total(NNow, ts[i := t]) == Total(NNow, ts) - NNow(ts[i]) + NNow(t)
    ensures Total(IsIdle, ts[i := t]) == Total(IsIdle, ts) - IsIdle(ts[i]) + IsIdle(t)
    ensures Total(IsIn, ts[i := t]) == Total(IsIn, ts) - IsIn(ts[i]) + IsIn(t)
    ensures Batch(t) == Batch(ts[i]) ==> Held(ts[i := t]) == Held(ts)
    ensures !t.Working? ==> Held(ts[i := t]) + Batch(ts[i]) == Held(ts)
    ensures !ts[i].Working? ==> Held(ts[i := t]) == Held(ts) + Batch(t)
  {
    hide Total, Held;
    TotalUpdate(NNow, ts, i, t);
    TotalUpdate(IsIdle, ts, i, t);
    TotalUpdate(IsIn, ts, i, t);
    HeldUpdate(ts, i, t);
    if Batch(t) == Batch(ts[i]) { HeldSame(ts, ts[i := t]); }
    if !t.Working? { assert Held(ts) + Batch(t) == Held(ts); }
    if !ts[i].Working? { assert Held(ts[i := t]) + Batch(ts[i]) == Held(ts[i := t]); }
  }

  ghost predicate OnlyWoken(ts: seq<Thread>, ts': seq<Thread>) {
    |ts| == |ts'| && forall i :: 0 <= i < |ts| ==> ts'[i] == ts[i] || ts'[i] == Notify(ts[i])
  }

  lemma NotifyWakes(ts: seq<Thread>, pick: nat)
    requires |ts| > 0
    ensures OnlyWoken(ts, NotifyOne(ts, pick)) && OnlyWoken(ts, NotifyAll(ts)) && OnlyWoken(ts, ts)
    ensures NotifyOne(ts, pick)[0] == ts[0] == NotifyAll(ts)[0]
  {}

  /** Waking threads up moves no sum. */
  lemma SumsSame(ts: seq<Thread>, ts': seq<Thread>)
    requires OnlyWoken(ts, ts')
    ensures Total(NNow, ts') == Total(NNow, ts) && Total(IsIdle, ts') == Total(IsIdle, ts)
    ensures Total(IsIn, ts') == Total(IsIn, ts) && Held(ts') == Held(ts)
    ensures forall fAllOk :: ThreadsOk(ts, fAllOk) ==> ThreadsOk(ts', fAllOk)
  {
    hide Total, Held;
    TotalSame(NNow, ts, ts');
    TotalSame(IsIdle, ts, ts');
    TotalSame(IsIn, ts, ts');
    HeldSame(ts, ts');
  }

  lemma AllOkAsMultiset(cs: seq<Check>)
    ensures AllOk(cs) <==> !Failed(multiset(cs))
  {
    if AllOk(cs) {
      forall c | c in multiset(cs) ensures c.ok {
        assert c in cs;
      }
    } else {
      var i :| 0 <= i < |cs| && !cs[i].ok;
      assert cs[i] in multiset(cs);
    }
  }

  lemma ThreadsWorse(ts: seq<Thread>, i: nat, t: Thread, fAllOk: bool, fAllOk': bool)
    requires ThreadsOk(ts, fAllOk) && i < |ts| && ThreadOk(t, fAllOk') && t != Outside && (fAllOk' ==> fAllOk)
    ensures ThreadsOk(ts[i := t], fAllOk')
  {
    var ts' := ts[i := t];
    forall j | 0 <= j < |ts| ensures ThreadOk(ts'[j], fAllOk') {
      assert ThreadOk(ts[j], fAllOk);
    }
  }

  lemma MergedKeeps(m: Machine, i: nat)
    requires Inv(m) && Enabled(m, Lock(i))
    ensures InvAt(Merged(m, i), i)
  {
    hide Total, Held, Conserved, AllOk, Failed, ThreadsOk;
    var t, m' := m.threads[i], Merged(m, i);
    var ts := m.threads[i := Start];
    SumsUpdate(m.threads, i, Start);
    assert OnlyWoken(ts, m'.threads);
    SumsSame(ts, m'.threads);
    BatchVerdict(m, i);
    ThreadsWorse(m.threads, i, Start, m.q.fAllOk, m'.q.fAllOk);
    ConservedMove(multiset(m.q.queue), Held(m.threads), m.finished, multiset(m.session),
                  multiset(m'.q.queue), Held(m'.threads), m'.finished, Batch(t));
  }

  /** Merging the verdict on a batch into the verdict on the finished checks. */
  lemma BatchVerdict(m: Machine, i: nat)
    requires Inv(m) && Enabled(m, Lock(i))
    ensures Merged(m, i).q.fAllOk <==> !Failed(m.finished + Batch(m.threads[i]))
    ensures m.threads[i].Working? ==> |m.threads[i].batch| >= 1
  {
    hide Total, Held, Conserved, Failed;
    var t := m.threads[i];
    FailedUnion(m.finished, Batch(t));
    assert ThreadOk(t, m.q.fAllOk);
    if t.Working? {
      assert t.batch[..t.done] == t.batch;
      AllOkAsMultiset(t.batch);
    } else {
      assert m.finished + Batch(t) == m.finished;
    }
  }

  lemma FailedUnion(a: multiset<Check>, b: multiset<Check>)
    ensures Failed(a + b) <==> Failed(a) || Failed(b)
  {
    if Failed(a) { var c :| c in a && !c.ok; assert c in a + b; }
    if Failed(b) { var c :| c in b && !c.ok; assert c in a + b; }
  }

  lemma AtHeadKeeps(m: Machine, i: nat)
    requires InvAt(m, i)
    ensures m.q.nIdle >= 0 && m.q.nTotal >= 1
    ensures Inv(AtHead(m, i))
  {
    hide Total, Held, Conserved, AllOk, Failed, Taken, BatchSize;
    if m.q.queue == [] && i == 0 && m.q.nTodo == 0 {
      ReturnKeeps(m);
    } else if m.q.queue == [] {
      SumsUpdate(m.threads, i, Asleep(false));
    } else {
      TakeKeeps(m, i);
    }
  }

  lemma TakeKeeps(m: Machine, i: nat)
    requires InvAt(m, i) && m.q.queue != []
    ensures Inv(AtHead(m, i))
  {
    hide Total, Held, Conserved, AllOk, Failed, Taken, BatchSize;
    var n := BatchSize(m.q);
    var batch, queue' := Taken(m.q.queue, n), m.q.queue[..|m.q.queue| - n];
    TakenSplits(m.q.queue, n);
    var t := Working(batch, 0, m.q.fAllOk);
    SumsUpdate(m.threads, i, t);
    assert ThreadOk(t, m.q.fAllOk) by { AllOkNone(batch); }
    ConservedMove(multiset(m.q.queue), Held(m.threads), m.finished, multiset(m.session),
                  multiset(queue'), Held(m.threads[i := t]), m.finished, multiset(batch));
  }

  lemma AllOkNone(cs: seq<Check>)
    ensures AllOk(cs[..0])
  {}

  /** Wait returns with everything finished, and with the right answer. */
  lemma ReturnKeeps(m: Machine)
    requires InvAt(m, 0) && m.q.queue == [] && m.q.nTodo == 0
    ensures Inv(AtHead(m, 0))
    ensures m.q.fAllOk == AllOk(m.session) && m.finished == multiset(m.session)
    ensures forall j :: 0 <= j < |m.threads| ==> !m.threads[j].Working?
  {
    hide Total, Held, AllOk, Failed;
    var ts := m.threads[0 := Outside];
    SumsUpdate(m.threads, 0, Outside);
    NothingHeld(m.threads);
    NothingHeld(ts);
    AllOkAsMultiset(m.session);
    forall j | 0 <= j < |m.threads| ensures !m.threads[j].Working? {
      assert ThreadOk(m.threads[j], m.q.fAllOk) && NNow(m.threads[j]) == 0;
    }
    assert !Failed(multiset{}) by { AllOkAsMultiset([]); AllOkNone([]); }
  }

  lemma StepSane(m: Machine, op: Op)
    requires Inv(m) && Enabled(m, op)
    ensures Sane(m) && (op.Wake? ==> m.q.nIdle > 0)
  {
    hide Held, Conserved, AllOk, Failed;
    if op.Wake? { TotalAtLeast(IsIdle, m.threads, op.i); }
  }

  lemma AddKeeps(m: Machine, checks: seq<Check>, pick: nat)
    requires Inv(m) && Enabled(m, Add(checks, pick))
    ensures Sane(m) && Inv(Step(m, Add(checks, pick)))
  {
    hide Total, Held, Conserved, AllOk, Failed, NotifyOne, NotifyAll, OnlyWoken, ThreadsOk;
    StepSane(m, Add(checks, pick));
    var m' := Step(m, Add(checks, pick));
    NotifyWakes(m.threads, pick);
    SumsSame(m.threads, m'.threads);
    ConservedPush(multiset(m.q.queue), Held(m.threads), m.finished, multiset(m.session), multiset(checks));
  }

  lemma SpawnKeeps(m: Machine)
    requires Inv(m)
    ensures Sane(m) && Inv(Step(m, Spawn))
  {
    var ts := m.threads + [Start];
    assert ts[..|ts| - 1] == m.threads;
  }

  lemma RanOk(t: Thread, fAllOk: bool)
    requires t.Working? && t.done < |t.batch| && ThreadOk(t, fAllOk)
    ensures ThreadOk(Ran(t), fAllOk)
  {
    var done := t.batch[..t.done + 1];
    assert forall j :: 0 <= j < t.done ==> done[j] == t.batch[..t.done][j];
    if t.fOk && t.batch[t.done].ok { assert AllOk(done); }
  }

  lemma RunCheckKeeps(m: Machine, i: nat)
    requires Inv(m) && Enabled(m, RunCheck(i))
    ensures Sane(m) && Inv(Step(m, RunCheck(i)))
  {
    hide Total, Held, Conserved, Failed;
    var t := m.threads[i];
    SumsUpdate(m.threads, i, Ran(t));
    assert Batch(Ran(t)) == Batch(t);
    RanOk(t, m.q.fAllOk);
  }

  lemma WakeKeeps(m: Machine, i: nat)
    requires Inv(m) && Enabled(m, Wake(i))
    ensures Sane(m) && m.q.nIdle > 0 && Inv(Step(m, Wake(i)))
  {
    hide Total, Held, Conserved, AllOk, Failed, AtHead;
    StepSane(m, Wake(i));
    SumsUpdate(m.threads, i, Start);
    AtHeadKeeps(m.(q := m.q.(nIdle := m.q.nIdle - 1), threads := m.threads[i := Start]), i);
  }

  lemma EnterWaitKeeps(m: Machine)
    requires Inv(m) && Enabled(m, EnterWait)
    ensures Sane(m) && Inv(Step(m, EnterWait))
  {
    hide Total, Held, Conserved, AllOk, Failed;
    SumsUpdate(m.threads, 0, Start);
  }

  lemma StepKeeps(m: Machine, op: Op)
    requires Inv(m) && Enabled(m, op)
    ensures Sane(m) && (op.Wake? ==> m.q.nIdle > 0) && Inv(Step(m, op))
  {
    hide Inv, AtHead, Merged;
    match op
    case Spawn => SpawnKeeps(m);
    case Add(checks, pick) => AddKeeps(m, checks, pick);
    case EnterWait => EnterWaitKeeps(m);
    case Lock(i) => StepSane(m, op); MergedKeeps(m, i); AtHeadKeeps(Merged(m, i), i);
    case RunCheck(i) => RunCheckKeeps(m, i);
    case Wake(i) => WakeKeeps(m, i);
  }

  // ---------------------------------------------------------------------------------------------
  // Whole runs
  // ---------------------------------------------------------------------------------------------

  function Initial(nBatchSize: nat): Machine {
    Machine(Shared([], 0, 0, 0, true, nBatchSize), [Outside], [], multiset{}, [])
  }

  ghost predicate Possible(m: Machine, ops: seq<Op>)
    decreases |ops|
  {
    ops != [] ==>
      Sane(m) && Enabled(m, ops[0]) && (ops[0].Wake? ==> m.q.nIdle > 0) && Possible(Step(m, ops[0]), ops[1..])
  }

  ghost function Run(m: Machine, ops: seq<Op>): Machine
    requires Possible(m, ops)
    decreases |ops|
  {
    if ops == [] then m else Run(Step(m, ops[0]), ops[1..])
  }

  /** In every interleaving, every Wait that has returned answered whether all checks of its session hold. */
  lemma {:induction false} RunKeeps(m: Machine, ops: seq<Op>)
    requires Inv(m) && Possible(m, ops)
    ensures Inv(Run(m, ops))
    decreases |ops|
  {
    hide Inv, Step, Enabled;
    if ops != [] {
      StepKeeps(m, ops[0]);
      RunKeeps(Step(m, ops[0]), ops[1..]);
    }
  }

  lemma InitialOk(nBatchSize: nat)
    ensures Inv(Initial(nBatchSize))
  {
    var m := Initial(nBatchSize);
    assert m.threads[..0] == [];
    AllOkAsMultiset([]);
  }

  /** Wait has returned, with nothing queued or held and with the right answer, and the next session starts clean. */
  ghost predicate Finished(m: Machine, m': Machine) {
    && m'.outcomes == m.outcomes + [Outcome(m.session, AllOk(m.session))]
    && m'.q.queue == [] && m'.q.nTodo == 0 && m'.q.fAllOk && m'.session == [] && m'.finished == multiset{}
    && forall i :: 0 <= i < |m'.threads| ==> !m'.threads[i].Working?
  }

  lemma AtHeadFinishes(m: Machine, i: nat)
    requires InvAt(m, i)
    ensures m.q.nIdle >= 0 && m.q.nTotal >= 0
    ensures m.threads[0] != Outside && AtHead(m, i).threads[0] == Outside ==> Finished(m, AtHead(m, i))
  {
    hide Total, Held, Conserved, AllOk, Failed, Taken, BatchSize, Inv;
    AtHeadKeeps(m, i);
    if i == 0 && m.q.queue == [] && m.q.nTodo == 0 { ReturnKeeps(m); }
  }

  lemma WaitReturns(m: Machine, op: Op)
    requires Inv(m) && Enabled(m, op) && m.threads[0] != Outside
    ensures Sane(m) && (op.Wake? ==> m.q.nIdle > 0)
    ensures Step(m, op).threads[0] == Outside ==> Finished(m, Step(m, op))
  {
    hide Total, Held, Conserved, AllOk, Failed, AtHead, Finished;
    StepSane(m, op);
    match op
    case Spawn =>
    case Add(checks, pick) =>
    case EnterWait =>
    case RunCheck(i) =>
    case Lock(i) =>
      MergedKeeps(m, i);
      AtHeadFinishes(Merged(m, i), i);
      FinishedFrom(m, Merged(m, i), Step(m, op));
    case Wake(i) =>
      var m1 := m.(q := m.q.(nIdle := m.q.nIdle - 1), threads := m.threads[i := Start]);
      SumsUpdate(m.threads, i, Start);
      AtHeadFinishes(m1, i);
      FinishedFrom(m, m1, Step(m, op));
  }

  lemma FinishedFrom(m: Machine, m1: Machine, m': Machine)
    requires m1.session == m.session && m1.outcomes == m.outcomes
    ensures Finished(m1, m') ==> Finished(m, m')
  {}

  /** Outside the step in which Wait returns, no answer is recorded and no check of the session is forgotten. */
  lemma SessionGrows(m: Machine, op: Op)
    requires Sane(m) && Enabled(m, op) && (op.Wake? ==> m.q.nIdle > 0)
    ensures var m' := Step(m, op);
            m'.outcomes == m.outcomes ==> m'.session == m.session + (if op.Add? then op.checks else [])
  {
    hide Taken, BatchSize;
    assert m.session + [] == m.session;
  }

  /** A master asleep and not notified waits for a worker that holds checks and can go on. */
  lemma MasterWaitsForWorker(m: Machine) returns (i: nat)
    requires Inv(m) && m.threads[0] == Asleep(false)
    ensures 0 < i < |m.threads| && m.threads[i].Working? && |m.threads[i].batch| > 0
    ensures Enabled(m, Lock(i)) || Enabled(m, RunCheck(i))
  {
    hide Total, Held, Conserved, AllOk, Failed;
    i := SomeContributes(NNow, m.threads);
    assert ThreadOk(m.threads[i], m.q.fAllOk);
  }

  /** While the master is in Wait, some thread can take a step that is not a spurious wake-up. */
  lemma NoDeadlock(m: Machine) returns (op: Op)
    requires Inv(m) && m.threads[0] != Outside
    ensures Enabled(m, op) && !Spurious(m, op) && (op.Lock? || op.RunCheck? || op.Wake?)
  {
    hide Total, Held, Conserved, AllOk, Failed;
    var t := m.threads[0];
    assert ThreadOk(t, m.q.fAllOk);
    if t == Asleep(false) {
      var i := MasterWaitsForWorker(m);
      op := if m.threads[i].done < |m.threads[i].batch| then RunCheck(i) else Lock(i);
    } else if t.Asleep? {
      op := Wake(0);
    } else if t.Working? && t.done < |t.batch| {
      op := RunCheck(0);
    } else {
      op := Lock(0);
    }
  }

  /** The work still to do. */
  function Weight(t: Thread): nat {
    match t
    case Outside => 0
    case Start => 1
    case Asleep(notified) => if notified then 1 else 0
    case Working(batch, done, _) => 2 + if done <= |batch| then |batch| - done else 0
  }

  ghost function Work(m: Machine): nat { 4 * |m.q.queue| + Total(Weight, m.threads) }

  lemma AtHeadWorks(m: Machine, i: nat)
    requires InvAt(m, i)
    ensures m.q.nIdle >= 0 && m.q.nTotal >= 0 && Work(AtHead(m, i)) < Work(m)
  {
    hide Total, Held, Conserved, AllOk, Failed;
    AtHeadKeeps(m, i);
    TotalUpdate(Weight, m.threads, i, AtHead(m, i).threads[i]);
  }

  lemma MergedWorks(m: Machine, i: nat)
    requires Inv(m) && Enabled(m, Lock(i))
    ensures Work(Merged(m, i)) <= Work(m)
  {
    hide Total, Held, Conserved, AllOk, Failed, InvAt;
    BatchVerdict(m, i);
    var ts := m.threads[i := Start];
    TotalUpdate(Weight, m.threads, i, Start);
    TotalUpdate(Weight, ts, 0, Notify(ts[0]));
  }

  /** Every step of a thread, other than a spurious wake-up, leaves less work. */
  lemma StepWorks(m: Machine, op: Op)
    requires Inv(m) && Enabled(m, op) && !Spurious(m, op) && (op.Lock? || op.RunCheck? || op.Wake?)
    ensures Sane(m) && (op.Wake? ==> m.q.nIdle > 0) && Work(Step(m, op)) < Work(m)
  {
    hide Total, Held, Conserved, AllOk, Failed, AtHead, Merged;
    StepSane(m, op);
    match op
    case Lock(i) =>
      MergedKeeps(m, i);
      AtHeadWorks(Merged(m, i), i);
      MergedWorks(m, i);
    case RunCheck(i) => TotalUpdate(Weight, m.threads, i, Ran(m.threads[i]));
    case Wake(i) =>
      TotalUpdate(Weight, m.threads, i, Start);
      SumsUpdate(m.threads, i, Start);
      AtHeadWorks(m.(q := m.q.(nIdle := m.q.nIdle - 1), threads := m.threads[i := Start]), i);
  }

  /** Only threads stepping, and no wake-up that was not asked for. */
  ghost predicate Driven(m: Machine, ops: seq<Op>)
    requires Possible(m, ops)
    decreases |ops|
  {
    ops != [] ==>
      && !Spurious(m, ops[0]) && (ops[0].Lock? || ops[0].RunCheck? || ops[0].Wake?)
      && Driven(Step(m, ops[0]), ops[1..])
  }

  /** The threads can only take so many steps. */
  lemma {:induction false} WaitTerminates(m: Machine, ops: seq<Op>)
    requires Inv(m) && Possible(m, ops) && Driven(m, ops)
    ensures |ops| + Work(Run(m, ops)) <= Work(m)
    decreases |ops|
  {
    hide Inv, Step, Enabled, Work;
    if ops != [] {
      StepKeeps(m, ops[0]);
      StepWorks(m, ops[0]);
      WaitTerminates(Step(m, ops[0]), ops[1..]);
    }
  }

  predicate MasterOutside(m: Machine) { |m.threads| > 0 && m.threads[0] == Outside }

  lemma HasMaster(m: Machine)
    requires Inv(m)
    ensures |m.threads| > 0
  {}

  /** From every state of a session the threads can bring Wait to its end. */
  lemma {:induction false} WaitCanReturn(m: Machine) returns (ops: seq<Op>)
    requires Inv(m)
    ensures Possible(m, ops) && Driven(m, ops) && MasterOutside(Run(m, ops))
    decreases Work(m)
  {
    hide Inv, Step, Enabled, Work;
    ops := [];
    HasMaster(m);
    if !MasterOutside(m) {
      var op := NoDeadlock(m);
      StepKeeps(m, op);
      StepWorks(m, op);
      var rest := WaitCanReturn(Step(m, op));
      ops := [op] + rest;
      assert ops[1..] == rest;
    }
  }

  /** Wait always returns: a run in which the threads go on for as long as they can ends with the master outside.  By
      WaitTerminates every run gets that far. */
  lemma WaitAlwaysReturns(m: Machine, ops: seq<Op>)
    requires Inv(m) && Possible(m, ops) && Driven(m, ops)
    requires forall op :: Enabled(Run(m, ops), op) && (op.Lock? || op.RunCheck? || op.Wake?) ==>
               Spurious(Run(m, ops), op)
    ensures MasterOutside(Run(m, ops))
  {
    hide Inv, Step, Enabled, Work, Run;
    RunKeeps(m, ops);
    HasMaster(Run(m, ops));
    if !MasterOutside(Run(m, ops)) { var op := NoDeadlock(Run(m, ops)); }
  }

  // ---------------------------------------------------------------------------------------------
  // The code
  // ---------------------------------------------------------------------------------------------

  datatype Wakeup = Nobody | One | Everybody

  class Queue {
    var queue: seq<Check>
    var nIdle: int
    var nTotal: int
    var fAllOk: bool
    var nTodo: int
    const nBatchSize: nat

    function Fields(): Shared reads this { Shared(queue, nTodo, nIdle, nTotal, fAllOk, nBatchSize) }

    constructor (nBatchSizeIn: nat)
      ensures Fields() == Initial(nBatchSizeIn).q
    {
      queue, nIdle, nTotal, fAllOk, nTodo, nBatchSize := [], 0, 0, true, 0, nBatchSizeIn;
    }

    /** The first part of Loop's critical section; says whether condMaster is notified. */
    method FinishRound(fMaster: bool, nNow: nat, fOk: bool) returns (notifyMaster: bool)
      modifies this
      ensures Fields() == CleanUp(old(Fields()), nNow, fOk)
      ensures notifyMaster == (nNow != 0 && nTodo == 0 && !fMaster)
    {
      notifyMaster := false;
      if nNow != 0 {
        fAllOk := fAllOk && fOk;
        nTodo := nTodo - nNow;
        if nTodo == 0 && !fMaster { notifyMaster := true; }
      } else {
        nTotal := nTotal + 1;
      }
    }

    /** The rest of it, up to leaving the mutex. */
    method Proceed(fMaster: bool) returns (d: Decision)
      requires nIdle >= 0 && nTotal >= 0
      modifies this
      ensures (Fields(), d) == Head(old(Fields()), fMaster)
    {
      if queue == [] {
        if fMaster && nTodo == 0 {
          nTotal := nTotal - 1;
          var fRet := fAllOk;
          fAllOk := true;
          return Return(fRet);
        }
        nIdle := nIdle + 1;
        return Sleep;
      }
      var nNow := BatchSize(Fields());
      var vChecks := TakeBatch(nNow);
      d := Take(vChecks, fAllOk);
    }

    /** Moves checks from the back of the queue into the batch. */
    method TakeBatch(nNow: nat) returns (vChecks: seq<Check>)
      requires nNow <= |queue|
      modifies this
      ensures vChecks == Taken(old(queue), nNow)
      ensures Fields() == old(Fields()).(queue := old(queue)[..|old(queue)| - nNow])
    {
      vChecks := [];
      for i := 0 to nNow
        invariant Fields() == old(Fields()).(queue := old(queue)[..|old(queue)| - i])
        invariant vChecks == Taken(old(queue), i)
      {
        vChecks := vChecks + [queue[|queue| - 1]];
        queue := queue[..|queue| - 1];
      }
    }

    method Wakened(fMaster: bool) returns (d: Decision)
      requires nIdle > 0 && nTotal >= 0
      modifies this
      ensures (Fields(), d) == Head(old(Fields()).(nIdle := old(nIdle) - 1), fMaster)
    {
      nIdle := nIdle - 1;
      d := Proceed(fMaster);
    }

    method Add(vChecks: seq<Check>) returns (notify: Wakeup)
      modifies this
      ensures Fields() == Pushed(old(Fields()), vChecks)
      ensures notify == if |vChecks| == 1 then One else if |vChecks| > 1 then Everybody else Nobody
    {
      for i := 0 to |vChecks|
        invariant Fields() == old(Fields()).(queue := old(queue) + vChecks[..i])
      {
        queue := queue + [vChecks[i]];
      }
      assert vChecks[..|vChecks|] == vChecks;
      nTodo := nTodo + |vChecks|;
      notify := if |vChecks| == 1 then One else if |vChecks| > 1 then Everybody else Nobody;
    }
  }

  /** The state of a thread that has worked through n of the checks of its batch. */
  ghost function RanTimes(t: Thread, n: nat): (r: Thread)
    requires t.Working? && t.done + n <= |t.batch|
    ensures r.Working? && r.batch == t.batch && r.done == t.done + n
  {
    if n == 0 then t else Ran(RanTimes(t, n - 1))
  }

  /** Executing a batch: all of it passes, or the rest is skipped. */
  method Execute(vChecks: seq<Check>, fAllOk: bool) returns (fOk: bool)
    ensures fOk == (fAllOk && AllOk(vChecks))
    ensures RanTimes(Working(vChecks, 0, fAllOk), |vChecks|) == Working(vChecks, |vChecks|, fOk)
  {
    fOk := fAllOk;
    for i := 0 to |vChecks|
      invariant fOk == (fAllOk && AllOk(vChecks[..i]))
      invariant RanTimes(Working(vChecks, 0, fAllOk), i) == Working(vChecks, i, fOk)
    {
      assert vChecks[..i + 1] == vChecks[..i] + [vChecks[i]];
      if fOk { fOk := vChecks[i].ok; }
    }
    assert vChecks[..|vChecks|] == vChecks;
  }
}
