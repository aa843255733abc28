/** All interleavings of one master and any number of workers over the check queue. */
module CheckQueueProtocol {
  import opened CheckQueue

  /** Thread 0 is the master. A blocked thread wakes when it was signalled, or spuriously. */
  datatype Thread = Outside | Working(batch: seq<Check>, start: bool) | Blocked(signalled: bool)

  datatype State = State(
    q: Shared,
    threads: seq<Thread>,
    round: multiset<Check>,   // everything added since the master last returned
    done: multiset<Check>,    // the part of it already evaluated or skipped
    result: bool)             // what the master returned last

  /** A total over the first n threads. */
  function Sum(threads: seq<Thread>, n: nat, f: Thread -> nat): nat
    requires n <= |threads|
  {
    if n == 0 then 0 else Sum(threads, n - 1, f) + f(threads[n - 1])
  }

  function Idle(t: Thread): nat {
    if t.Blocked? then 1 else 0
  }

  function Running(t: Thread): nat {
    if t.Working? then 1 else 0
  }

  function Size(t: Thread): nat {
    if t.Working? then |t.batch| else 0
  }

  /** How often check c is in a thread's hands. */
  function Copies(c: Check): Thread -> nat {
    (t: Thread) => if t.Working? then multiset(t.batch)[c] else 0
  }

  // ---- Steps ----

  predicate Init(s: State, nThreads: nat, nBatchSize: nat) {
    && nThreads >= 1
    && s == State(Shared([], 0, 0, true, 0, false, nBatchSize), seq(nThreads, i => Outside), multiset{}, multiset{}, true)
  }

  /** The state once thread i leaves its critical section the way Settle says. */
  function Settled(s: State, q: Shared, threads: seq<Thread>, done: multiset<Check>, i: nat): State
    requires i < |threads| && (q.queue != [] ==> q.nTotal + q.nIdle >= 0)
  {
    var (after, o) := Settle(q, i == 0);
    match o
    case Takes(batch, ok) => State(after, threads[i := Working(batch, ok)], s.round, done, s.result)
    case Waits => State(after, threads[i := Blocked(false)], s.round, done, s.result)
    case Returns(ok) =>
      if i == 0 then State(after, threads[i := Outside], multiset{}, multiset{}, ok)
      else State(after, threads[i := Outside], s.round, done, s.result)
  }

  predicate Settles(s: State, q: Shared, threads: seq<Thread>, done: multiset<Check>, t: State, i: nat) {
    && i < |threads| && (q.queue != [] ==> q.nTotal + q.nIdle >= 0)
    && t == Settled(s, q, threads, done, i)
  }

  /** A thread calls Loop. */
  predicate Enter(s: State, t: State, i: nat) {
    && i < |s.threads| && s.threads[i] == Outside
    && Settles(s, Joined(s.q), s.threads, s.done, t, i)
  }

  /** The shared state and the threads once a batch has been reported, and the master notified if need be. */
  function Reported(s: State, i: nat): (Shared, seq<Thread>)
    requires i < |s.threads| && s.threads[i].Working?
  {
    var w := s.threads[i];
    var q := Counted(s.q, |w.batch|, Run(w.batch, w.start));
    (q, if q.nTodo == 0 && i != 0 && s.threads[0].Blocked? then s.threads[0 := Blocked(true)] else s.threads)
  }

  /** A working thread is through with its batch; the one that finishes the last check notifies the master. */
  predicate Finish(s: State, t: State, i: nat) {
    && i < |s.threads| && s.threads[i].Working?
    && var (q, threads) := Reported(s, i);
       Settles(s, q, threads, s.done + multiset(s.threads[i].batch), t, i)
  }

  predicate Wake(s: State, t: State, i: nat) {
    && i < |s.threads| && s.threads[i].Blocked?
    && Settles(s, Woken(s.q), s.threads, s.done, t, i)
  }

  /** The blocked threads that a notification reaches are signalled. */
  ghost predicate Notified(before: seq<Thread>, after: seq<Thread>, notice: Notice) {
    && |after| == |before|
    && (forall i :: 0 <= i < |after| ==>
          after[i] == before[i] || (!notice.NotifyNone? && before[i].Blocked? && after[i] == Blocked(true)))
    && (notice.NotifyAll? ==> forall i :: 0 <= i < |after| && before[i].Blocked? ==> after[i] == Blocked(true))
    && (notice.NotifyOne? ==> forall i, j :: 0 <= i < j < |after| ==> after[i] == before[i] || after[j] == before[j])
    && (notice.NotifyOne? && (exists i :: 0 <= i < |after| && before[i] == Blocked(false)) ==>
          exists i :: 0 <= i < |after| && before[i] == Blocked(false) && after[i] == Blocked(true))
  }

  /** The master, outside the loop, adds checks and notifies workers: one for one check, all for more. */
  ghost predicate Add(s: State, t: State, checks: seq<Check>, threads: seq<Thread>) {
    && s.threads != [] && s.threads[0] == Outside && Notified(s.threads, threads, NoticeFor(checks))
    && t == s.(q := s.q.(queue := s.q.queue + checks, nTodo := s.q.nTodo + |checks|), threads := threads,
               round := s.round + multiset(checks))
  }

  datatype Step = Entering(i: nat) | Finishing(i: nat) | Waking(i: nat) | Adding(checks: seq<Check>, threads: seq<Thread>)

  ghost predicate Next(s: State, t: State, step: Step) {
    match step
    case Entering(i) => Enter(s, t, i)
    case Finishing(i) => Finish(s, t, i)
    case Waking(i) => Wake(s, t, i)
    case Adding(checks, threads) => Add(s, t, checks, threads)
  }

  // ---- The invariant ----

  ghost predicate AllHold(checks: multiset<Check>) {
    forall c :: c in checks ==> c.holds
  }

  /** The counters say what they are named for. */
  ghost predicate Counts(q: Shared, threads: seq<Thread>) {
    && q.nIdle == Sum(threads, |threads|, Idle)
    && q.nTotal == Sum(threads, |threads|, Idle) + Sum(threads, |threads|, Running)
    && q.nTodo == |q.queue| + Sum(threads, |threads|, Size)
    && !q.fQuit
  }

  /** No check is lost or duplicated: each is queued, in a thread's hands, or done. */
  ghost predicate Conserved(q: Shared, threads: seq<Thread>, round: multiset<Check>, done: multiset<Check>) {
    forall c :: round[c] == multiset(q.queue)[c] + Sum(threads, |threads|, Copies(c)) + done[c]
  }

  /** fAllOk is the verdict on what has been evaluated; once it is false some check of the round fails. */
  ghost predicate Verdict(q: Shared, threads: seq<Thread>, round: multiset<Check>, done: multiset<Check>) {
    && (q.fAllOk ==> AllHold(done))
    && (!q.fAllOk ==> !AllHold(round))
    && (forall i :: 0 <= i < |threads| && threads[i].Working? ==> threads[i].batch != [] && (!threads[i].start ==> !AllHold(round)))
  }

  /** A blocked master that was not signalled still has work in other hands. */
  ghost predicate MasterWaits(q: Shared, threads: seq<Thread>) {
    && threads != []
    && (threads[0].Blocked? ==> q.queue == [])
    && (threads[0] == Blocked(false) ==> q.nTodo > 0)
  }

  ghost predicate Inv(s: State) {
    && Counts(s.q, s.threads) && Conserved(s.q, s.threads, s.round, s.done)
    && Verdict(s.q, s.threads, s.round, s.done) && MasterWaits(s.q, s.threads)
  }

  // ---- One thread changes ----

  lemma {:induction false} ChangeOne(threads: seq<Thread>, i: nat, t: Thread, n: nat, f: Thread -> nat)
    requires i < |threads| && n <= |threads|
    ensures i < n ==> Sum(threads[i := t], n, f) + f(threads[i]) == Sum(threads, n, f) + f(t)
    ensures i >= n ==> Sum(threads[i := t], n, f) == Sum(threads, n, f)
  {
    if n > 0 {
      ChangeOne(threads, i, t, n - 1, f);
    }
  }

  lemma {:induction false} SameSum(threads: seq<Thread>, others: seq<Thread>, n: nat, f: Thread -> nat)
    requires |threads| == |others| && n <= |threads|
    requires forall i :: 0 <= i < |threads| ==> f(others[i]) == f(threads[i])
    ensures Sum(others, n, f) == Sum(threads, n, f)
  {
    if n > 0 {
      SameSum(threads, others, n - 1, f);
    }
  }

  lemma {:induction false} OneOfMany(threads: seq<Thread>, i: nat, n: nat, f: Thread -> nat)
    requires i < n <= |threads|
    ensures f(threads[i]) <= Sum(threads, n, f)
  {
    if i < n - 1 {
      OneOfMany(threads, i, n - 1, f);
    }
  }

  lemma {:induction false} TopIsTop(queue: seq<Check>, n: nat)
    requires n <= |queue|
    ensures multiset(queue) == multiset(queue[..|queue| - n]) + multiset(Top(queue, n))
  {
    if n == 0 {
      assert queue[..|queue|] == queue;
    } else {
      var m := |queue| - n;
      TopIsTop(queue, n - 1);
      assert queue[..m + 1] == queue[..m] + [queue[m]];
      assert Top(queue, n) == Top(queue, n - 1) + [queue[m]];
    }
  }

  // ---- Every step keeps the invariant ----

  /** What holds inside a critical section, just before it settles: thread i is between two states. */
  ghost predicate Between(s: State, q: Shared, threads: seq<Thread>, done: multiset<Check>, i: nat) {
    && i < |threads|
    && var rest := threads[i := Outside];
       && Counts(q.(nTotal := q.nTotal - 1), rest)
       && Conserved(q, rest, s.round, done) && Verdict(q, rest, s.round, done)
       && (i != 0 ==> MasterWaits(q, rest))
  }

  lemma TakeKeepsCounts(q: Shared, rest: seq<Thread>, i: nat, w: Thread)
    requires i < |rest| && rest[i] == Outside && Counts(q.(nTotal := q.nTotal - 1), rest)
    requires q.queue != [] && w == Working(Top(q.queue, BatchSize(q)), q.fAllOk)
    ensures Counts(Settle(q, i == 0).0, rest[i := w])
  {
    ChangeOne(rest, i, w, |rest|, Idle);
    ChangeOne(rest, i, w, |rest|, Running);
    ChangeOne(rest, i, w, |rest|, Size);
  }

  lemma TakeKeepsConserved(q: Shared, rest: seq<Thread>, round: multiset<Check>, done: multiset<Check>, i: nat, n: nat, ok: bool)
    requires i < |rest| && rest[i] == Outside && Conserved(q, rest, round, done) && n <= |q.queue|
    ensures Conserved(q.(queue := q.queue[..|q.queue| - n]), rest[i := Working(Top(q.queue, n), ok)], round, done)
  {
    TopIsTop(q.queue, n);
    var w := Working(Top(q.queue, n), ok);
    forall c ensures Sum(rest[i := w], |rest|, Copies(c)) == Sum(rest, |rest|, Copies(c)) + multiset(Top(q.queue, n))[c] {
      ChangeOne(rest, i, w, |rest|, Copies(c));
    }
  }

  lemma TakeKeepsVerdict(q: Shared, rest: seq<Thread>, round: multiset<Check>, done: multiset<Check>, i: nat, n: nat)
    requires i < |rest| && Verdict(q, rest, round, done) && 1 <= n <= |q.queue|
    ensures Verdict(q.(queue := q.queue[..|q.queue| - n]), rest[i := Working(Top(q.queue, n), q.fAllOk)], round, done)
  {
  }

  lemma TakeKeepsInv(s: State, q: Shared, threads: seq<Thread>, done: multiset<Check>, t: State, i: nat)
    requires Between(s, q, threads, done, i) && q.queue != [] && Settles(s, q, threads, done, t, i)
    ensures Inv(t)
  {
    var rest := threads[i := Outside];
    var n := BatchSize(q);
    var w := Working(Top(q.queue, n), q.fAllOk);
    var after := q.(queue := q.queue[..|q.queue| - n]);
    assert t == State(after, rest[i := w], s.round, done, s.result) by {
      assert threads[i := w] == rest[i := w];
    }
    assert Counts(t.q, t.threads) by { TakeKeepsCounts(q, rest, i, w); }
    assert Conserved(t.q, t.threads, t.round, t.done) by { TakeKeepsConserved(q, rest, s.round, done, i, n, q.fAllOk); }
    assert Verdict(t.q, t.threads, t.round, t.done) by { TakeKeepsVerdict(q, rest, s.round, done, i, n); }
  }

  lemma WaitKeepsInv(s: State, q: Shared, threads: seq<Thread>, done: multiset<Check>, t: State, i: nat)
    requires Between(s, q, threads, done, i) && q.queue == [] && !(i == 0 && q.nTodo == 0)
    requires Settles(s, q, threads, done, t, i)
    ensures Inv(t)
  {
    var rest := threads[i := Outside];
    var b := Blocked(false);
    assert threads[i := b] == rest[i := b];
    assert Counts(t.q, t.threads) by {
      ChangeOne(rest, i, b, |rest|, Idle);
      ChangeOne(rest, i, b, |rest|, Running);
      ChangeOne(rest, i, b, |rest|, Size);
    }
    assert Conserved(t.q, t.threads, t.round, t.done) by {
      forall c ensures Sum(rest[i := b], |rest|, Copies(c)) == Sum(rest, |rest|, Copies(c)) {
        ChangeOne(rest, i, b, |rest|, Copies(c));
      }
    }
  }

  lemma {:induction false} NothingInFlight(threads: seq<Thread>, n: nat, f: Thread -> nat)
    requires n <= |threads| && Sum(threads, n, Size) == 0
    requires forall i :: 0 <= i < n && threads[i].Working? ==> threads[i].batch != []
    requires forall t: Thread :: !t.Working? ==> f(t) == 0
    ensures Sum(threads, n, f) == 0 && forall i :: 0 <= i < n ==> !threads[i].Working?
  {
    if n > 0 {
      NothingInFlight(threads, n - 1, f);
    }
  }

  /** The master's return: nothing is queued or in flight, so everything added this round has been counted,
      and the verdict is exactly whether all of it holds. */
  lemma MasterReturns(s: State, q: Shared, threads: seq<Thread>, done: multiset<Check>, t: State)
    requires Between(s, q, threads, done, 0) && q.queue == [] && q.nTodo == 0
    requires Settles(s, q, threads, done, t, 0)
    ensures Inv(t) && done == s.round && (t.result <==> AllHold(s.round))
  {
    var rest := threads[0 := Outside];
    NothingInFlight(rest, |rest|, Running);
    forall c ensures Sum(rest, |rest|, Copies(c)) == 0 && s.round[c] == done[c] {
      NothingInFlight(rest, |rest|, Copies(c));
    }
    assert s.round == done;
    assert Verdict(t.q, t.threads, t.round, t.done);
    assert Conserved(t.q, t.threads, t.round, t.done);
  }

  lemma SettlesKeepsInv(s: State, q: Shared, threads: seq<Thread>, done: multiset<Check>, t: State, i: nat)
    requires Between(s, q, threads, done, i) && Settles(s, q, threads, done, t, i)
    ensures Inv(t)
  {
    if q.queue != [] {
      TakeKeepsInv(s, q, threads, done, t, i);
    } else if i == 0 && q.nTodo == 0 {
      MasterReturns(s, q, threads, done, t);
    } else {
      WaitKeepsInv(s, q, threads, done, t, i);
    }
  }

  lemma EnterIsBetween(s: State, i: nat)
    requires Inv(s) && i < |s.threads| && s.threads[i] == Outside
    ensures Between(s, Joined(s.q), s.threads, s.done, i)
  {
    assert s.threads[i := Outside] == s.threads;
  }

  lemma WakeIsBetween(s: State, i: nat)
    requires Inv(s) && i < |s.threads| && s.threads[i].Blocked?
    ensures Between(s, Woken(s.q), s.threads, s.done, i)
  {
    var n := |s.threads|;
    ChangeOne(s.threads, i, Outside, n, Idle);
    ChangeOne(s.threads, i, Outside, n, Running);
    ChangeOne(s.threads, i, Outside, n, Size);
    forall c ensures Sum(s.threads[i := Outside], n, Copies(c)) == Sum(s.threads, n, Copies(c)) {
      ChangeOne(s.threads, i, Outside, n, Copies(c));
    }
  }

  lemma ReportKeepsCounts(s: State, i: nat)
    requires Inv(s) && i < |s.threads| && s.threads[i].Working?
    ensures var (q, threads) := Reported(s, i);
            Counts(q.(nTotal := q.nTotal - 1), threads[i := Outside])
  {
    var n := |s.threads|;
    var (q, threads) := Reported(s, i);
    SameSum(s.threads, threads, n, Idle);
    SameSum(s.threads, threads, n, Running);
    SameSum(s.threads, threads, n, Size);
    ChangeOne(threads, i, Outside, n, Idle);
    ChangeOne(threads, i, Outside, n, Running);
    ChangeOne(threads, i, Outside, n, Size);
  }

  lemma ReportKeepsConserved(s: State, i: nat)
    requires Inv(s) && i < |s.threads| && s.threads[i].Working?
    ensures var (q, threads) := Reported(s, i);
            Conserved(q, threads[i := Outside], s.round, s.done + multiset(s.threads[i].batch))
  {
    var n := |s.threads|;
    var (q, threads) := Reported(s, i);
    forall c ensures Sum(threads[i := Outside], n, Copies(c)) + multiset(s.threads[i].batch)[c] == Sum(s.threads, n, Copies(c)) {
      SameSum(s.threads, threads, n, Copies(c));
      ChangeOne(threads, i, Outside, n, Copies(c));
    }
  }

  lemma ReportKeepsVerdict(s: State, i: nat)
    requires Inv(s) && i < |s.threads| && s.threads[i].Working?
    ensures var (q, threads) := Reported(s, i);
            Verdict(q, threads[i := Outside], s.round, s.done + multiset(s.threads[i].batch))
  {
    var w := s.threads[i];
    if w.start && !Run(w.batch, w.start) {
      var c :| c in w.batch && !c.holds;
      assert multiset(w.batch)[c] > 0;
      OneOfMany(s.threads, i, |s.threads|, Copies(c));
      assert c in s.round;
    }
  }

  lemma FinishIsBetween(s: State, i: nat)
    requires Inv(s) && i < |s.threads| && s.threads[i].Working?
    ensures var (q, threads) := Reported(s, i);
            Between(s, q, threads, s.done + multiset(s.threads[i].batch), i)
  {
    ReportKeepsCounts(s, i);
    ReportKeepsConserved(s, i);
    ReportKeepsVerdict(s, i);
    var (q, threads) := Reported(s, i);
    OneOfMany(s.threads, i, |s.threads|, Size);
  }

  lemma AddKeepsVerdict(q: Shared, threads: seq<Thread>, others: seq<Thread>, round: multiset<Check>, done: multiset<Check>,
                        checks: seq<Check>)
    requires Verdict(q, threads, round, done) && |others| == |threads|
    requires forall i :: 0 <= i < |others| && others[i].Working? ==> others[i] == threads[i]
    ensures Verdict(q.(queue := q.queue + checks, nTodo := q.nTodo + |checks|), others, round + multiset(checks), done)
  {
    assert !AllHold(round) ==> !AllHold(round + multiset(checks));
  }

  lemma AddKeepsInv(s: State, t: State, checks: seq<Check>, threads: seq<Thread>)
    requires Inv(s) && Add(s, t, checks, threads)
    ensures Inv(t)
  {
    var n := |threads|;
    assert Counts(t.q, t.threads) by {
      SameSum(s.threads, threads, n, Idle);
      SameSum(s.threads, threads, n, Running);
      SameSum(s.threads, threads, n, Size);
    }
    assert Conserved(t.q, t.threads, t.round, t.done) by {
      forall c ensures Sum(threads, n, Copies(c)) == Sum(s.threads, n, Copies(c)) {
        SameSum(s.threads, threads, n, Copies(c));
      }
    }
    AddKeepsVerdict(s.q, s.threads, threads, s.round, s.done, checks);
  }

  lemma EnterKeepsInv(s: State, t: State, i: nat)
    requires Inv(s) && Enter(s, t, i)
    ensures Inv(t)
  {
    EnterIsBetween(s, i);
    SettlesKeepsInv(s, Joined(s.q), s.threads, s.done, t, i);
  }

  lemma WakeKeepsInv(s: State, t: State, i: nat)
    requires Inv(s) && Wake(s, t, i)
    ensures Inv(t)
  {
    WakeIsBetween(s, i);
    SettlesKeepsInv(s, Woken(s.q), s.threads, s.done, t, i);
  }

  lemma FinishKeepsInv(s: State, t: State, i: nat)
    requires Inv(s) && Finish(s, t, i)
    ensures Inv(t)
  {
    FinishIsBetween(s, i);
    var (q, threads) := Reported(s, i);
    SettlesKeepsInv(s, q, threads, s.done + multiset(s.threads[i].batch), t, i);
  }

  lemma NextKeepsInv(s: State, t: State, step: Step)
    requires Inv(s) && Next(s, t, step)
    ensures Inv(t)
  {
    match step
    case Entering(i) => EnterKeepsInv(s, t, i);
    case Waking(i) => WakeKeepsInv(s, t, i);
    case Finishing(i) => FinishKeepsInv(s, t, i);
    case Adding(checks, threads) => AddKeepsInv(s, t, checks, threads);
  }

  lemma {:induction false} SumOfOutside(threads: seq<Thread>, n: nat, f: Thread -> nat)
    requires n <= |threads| && f(Outside) == 0 && forall i :: 0 <= i < |threads| ==> threads[i] == Outside
    ensures Sum(threads, n, f) == 0
  {
    if n > 0 {
      SumOfOutside(threads, n - 1, f);
    }
  }

  lemma InitKeepsInv(s: State, nThreads: nat, nBatchSize: nat)
    requires Init(s, nThreads, nBatchSize)
    ensures Inv(s)
  {
    SumOfOutside(s.threads, nThreads, Idle);
    SumOfOutside(s.threads, nThreads, Running);
    SumOfOutside(s.threads, nThreads, Size);
    forall c ensures Sum(s.threads, nThreads, Copies(c)) == 0 {
      SumOfOutside(s.threads, nThreads, Copies(c));
    }
  }

  // ---- What callers rely on ----

  ghost predicate Behavior(trace: seq<State>, steps: seq<Step>, nThreads: nat, nBatchSize: nat) {
    && |trace| == |steps| + 1 && Init(trace[0], nThreads, nBatchSize)
    && forall i :: 0 <= i < |steps| ==> StepAt(trace, steps, i)
  }

  ghost predicate StepAt(trace: seq<State>, steps: seq<Step>, i: nat)
    requires i < |steps| && |trace| == |steps| + 1
  {
    Next(trace[i], trace[i + 1], steps[i])
  }

  lemma {:induction false} RunKeepsInv(trace: seq<State>, steps: seq<Step>, nThreads: nat, nBatchSize: nat, i: nat)
    requires Behavior(trace, steps, nThreads, nBatchSize) && i < |trace|
    ensures Inv(trace[i])
  {
    if i == 0 {
      InitKeepsInv(trace[0], nThreads, nBatchSize);
    } else {
      RunKeepsInv(trace, steps, nThreads, nBatchSize, i - 1);
      assert StepAt(trace, steps, i - 1);
      NextKeepsInv(trace[i - 1], trace[i], steps[i - 1]);
    }
  }

  /** The step is one of the master inside the loop. */
  predicate IsMasters(step: Step) {
    !step.Adding? && step.i == 0
  }

  lemma OutsideMeansReturned(s: State, q: Shared, threads: seq<Thread>, done: multiset<Check>, t: State)
    requires Between(s, q, threads, done, 0) && Settles(s, q, threads, done, t, 0) && t.threads[0] == Outside
    ensures Inv(t) && t.round == multiset{} && (t.result <==> AllHold(s.round))
  {
    MasterReturns(s, q, threads, done, t);
  }

  lemma MasterLeaves(s: State, t: State, step: Step)
    requires Inv(s) && Next(s, t, step) && IsMasters(step) && t.threads[0] == Outside
    ensures Inv(t) && t.round == multiset{} && (t.result <==> AllHold(s.round))
  {
    if step.Entering? {
      EnterIsBetween(s, 0);
      OutsideMeansReturned(s, Joined(s.q), s.threads, s.done, t);
    } else if step.Waking? {
      WakeIsBetween(s, 0);
      OutsideMeansReturned(s, Woken(s.q), s.threads, s.done, t);
    } else {
      FinishIsBetween(s, 0);
      var (q, threads) := Reported(s, 0);
      OutsideMeansReturned(s, q, threads, s.done + multiset(s.threads[0].batch), t);
    }
  }

  /** Wait returns only when no thread holds a check, and returns true exactly if every check added since the
      last return evaluates to true; and then the controller's entry assertions hold again. */
  lemma WaitIsRight(s: State, t: State, step: Step)
    requires Inv(s) && Next(s, t, step) && IsMasters(step) && t.threads[0] == Outside
    ensures t.result <==> AllHold(s.round)
    ensures t.q.queue == [] && forall i :: 0 <= i < |t.threads| ==> !t.threads[i].Working?
    ensures t.q.nTotal == t.q.nIdle && t.q.nTodo == 0 && t.q.fAllOk
  {
    MasterLeaves(s, t, step);
    QuietWhenEmpty(t);
  }

  lemma QueuedIsCounted(queue: seq<Check>)
    requires forall c :: multiset(queue)[c] == 0
    ensures queue == []
  {
    assert |multiset(queue)| == |queue|;
    assert multiset(queue) == multiset{};
  }

  lemma BatchIsCopied(threads: seq<Thread>, i: nat)
    requires i < |threads| && threads[i].Working? && threads[i].batch != []
    ensures Sum(threads, |threads|, Copies(threads[i].batch[0])) > 0
  {
    var c := threads[i].batch[0];
    assert multiset(threads[i].batch)[c] > 0;
    OneOfMany(threads, i, |threads|, Copies(c));
  }

  /** With nothing added since the last return the queue is as unused as the controller's entry assertions ask. */
  lemma QuietWhenEmpty(s: State)
    requires Inv(s) && s.round == multiset{}
    ensures s.q.nTotal == s.q.nIdle && s.q.nTodo == 0 && s.q.fAllOk
    ensures s.q.queue == [] && forall i :: 0 <= i < |s.threads| ==> !s.threads[i].Working?
  {
    QueuedIsCounted(s.q.queue);
    var n := |s.threads|;
    forall i | 0 <= i < n ensures !s.threads[i].Working? {
      if s.threads[i].Working? {
        BatchIsCopied(s.threads, i);
      }
    }
    NobodyWorks(s.threads, n, Running);
    NobodyWorks(s.threads, n, Size);
  }

  lemma {:induction false} NobodyWorks(threads: seq<Thread>, n: nat, f: Thread -> nat)
    requires n <= |threads| && (forall i :: 0 <= i < |threads| ==> !threads[i].Working?)
    requires forall t: Thread :: !t.Working? ==> f(t) == 0
    ensures Sum(threads, n, f) == 0
  {
    if n > 0 {
      NobodyWorks(threads, n - 1, f);
    }
  }

  /** A blocked master has been signalled, or some worker is at work; the one that brings nTodo to zero signals it. */
  lemma BlockedMasterIsWoken(s: State)
    requires Inv(s) && s.threads[0].Blocked?
    ensures s.threads[0].signalled || exists i :: 0 < i < |s.threads| && s.threads[i].Working?
  {
    if !s.threads[0].signalled && forall i :: 0 < i < |s.threads| ==> !s.threads[i].Working? {
      NobodyWorks(s.threads, |s.threads|, Size);
    }
  }

  // ---- Progress ----

  /** nTodo once thread i has reported its batch and gone on. */
  lemma FinishLowersTodo(s: State, t: State, i: nat)
    requires Inv(s) && Finish(s, t, i)
    ensures t.q.nTodo == s.q.nTodo - |s.threads[i].batch| < s.q.nTodo
    ensures t.q.nTodo == 0 && i != 0 && s.threads[0].Blocked? ==> t.threads[0] == Blocked(true)
  {
  }

  /** A blocked master that has been signalled finds the work done when he wakes up. */
  ghost predicate SignalledMeansOver(s: State) {
    s.threads != [] && s.threads[0] == Blocked(true) ==> s.q.nTodo == 0
  }

  lemma SettlingKeepsSignal(s: State, q: Shared, threads: seq<Thread>, done: multiset<Check>, t: State, i: nat)
    requires Settles(s, q, threads, done, t, i)
    ensures t.q.nTodo == q.nTodo && (t.threads[0] == Blocked(true) ==> i != 0 && threads[0] == Blocked(true))
  {
  }

  lemma NextKeepsSignal(s: State, t: State, step: Step)
    requires Inv(s) && SignalledMeansOver(s) && Next(s, t, step)
    ensures SignalledMeansOver(t)
  {
    match step
    case Entering(i) => SettlingKeepsSignal(s, Joined(s.q), s.threads, s.done, t, i);
    case Waking(i) => SettlingKeepsSignal(s, Woken(s.q), s.threads, s.done, t, i);
    case Finishing(i) =>
      FinishLowersTodo(s, t, i);
      var (q, threads) := Reported(s, i);
      SettlingKeepsSignal(s, q, threads, s.done + multiset(s.threads[i].batch), t, i);
      NextKeepsInv(s, t, step);
    case Adding(_, _) =>
  }

  lemma {:induction false} RunKeepsSignal(trace: seq<State>, steps: seq<Step>, nThreads: nat, nBatchSize: nat, i: nat)
    requires Behavior(trace, steps, nThreads, nBatchSize) && i < |trace|
    ensures SignalledMeansOver(trace[i])
  {
    if i > 0 {
      var m := i - 1;
      RunKeepsSignal(trace, steps, nThreads, nBatchSize, m);
      RunKeepsInv(trace, steps, nThreads, nBatchSize, m);
      assert StepAt(trace, steps, m);
      NextKeepsSignal(trace[m], trace[i], steps[m]);
    }
  }

  /** How many of the first n steps finish a batch, and how many checks the first n steps add. */
  function Batches(steps: seq<Step>, n: nat): nat
    requires n <= |steps|
  {
    if n == 0 then 0 else Batches(steps, n - 1) + if steps[n - 1].Finishing? then 1 else 0
  }

  function Checks(steps: seq<Step>, n: nat): nat
    requires n <= |steps|
  {
    if n == 0 then 0 else Checks(steps, n - 1) + if steps[n - 1].Adding? then |steps[n - 1].checks| else 0
  }

  lemma {:induction false} BatchesIs(steps: seq<Step>, n: nat)
    requires n <= |steps|
    ensures Batches(steps, n) == |set k | 0 <= k < n && steps[k].Finishing?|
  {
    if n > 0 {
      var m := n - 1;
      BatchesIs(steps, m);
      var before, all := set k | 0 <= k < m && steps[k].Finishing?, set k | 0 <= k < n && steps[k].Finishing?;
      assert all == before + if steps[m].Finishing? then {m} else {};
    }
  }

  lemma StepChangesTodo(s: State, t: State, step: Step)
    requires Inv(s) && Next(s, t, step)
    ensures if step.Finishing? then t.q.nTodo < s.q.nTodo
            else t.q.nTodo == s.q.nTodo + if step.Adding? then |step.checks| else 0
  {
    match step
    case Entering(i) => SettlingKeepsSignal(s, Joined(s.q), s.threads, s.done, t, i);
    case Waking(i) => SettlingKeepsSignal(s, Woken(s.q), s.threads, s.done, t, i);
    case Finishing(i) => FinishLowersTodo(s, t, i);
    case Adding(_, _) =>
  }

  /** Along every run no more batches are finished than checks have been added; the difference is at least nTodo. */
  lemma {:induction false} BatchesAreBounded(trace: seq<State>, steps: seq<Step>, nThreads: nat, nBatchSize: nat, n: nat)
    requires Behavior(trace, steps, nThreads, nBatchSize) && n <= |steps|
    ensures 0 <= trace[n].q.nTodo && Batches(steps, n) + trace[n].q.nTodo <= Checks(steps, n)
    ensures |set k | 0 <= k < n && steps[k].Finishing?| <= Checks(steps, n)
  {
    BatchesIs(steps, n);
    RunKeepsInv(trace, steps, nThreads, nBatchSize, n);
    if n > 0 {
      var m := n - 1;
      BatchesAreBounded(trace, steps, nThreads, nBatchSize, m);
      RunKeepsInv(trace, steps, nThreads, nBatchSize, m);
      assert StepAt(trace, steps, m);
      StepChangesTodo(trace[m], trace[n], steps[m]);
    }
  }

  /** The step ends a round, or brings its end nearer; others are entries, additions and wake-ups to no purpose. */
  predicate Advances(step: Step, t: State) {
    step.Finishing? || (IsMasters(step) && t.threads != [] && t.threads[0] == Outside)
  }

  /** As long as the master is inside the loop such a step is possible. So a round in which they are taken ends: after as
      many batches as there were checks at most, the master returns. */
  lemma MasterCanGoOn(s: State)
    requires Inv(s) && SignalledMeansOver(s) && s.threads[0] != Outside
    ensures exists step, t :: Next(s, t, step) && Advances(step, t)
  {
    if i :| 0 <= i < |s.threads| && s.threads[i].Working? {
      var t := FinishedState(s, i);
      assert Next(s, t, Finishing(i)) && Advances(Finishing(i), t);
    } else {
      BlockedMasterIsWoken(s);
      WakeIsBetween(s, 0);
      var t := Settled(s, Woken(s.q), s.threads, s.done, 0);
      assert Next(s, t, Waking(0)) && Advances(Waking(0), t);
    }
  }

  /** Whatever a thread is doing it can take a step, a blocked one too, as wake-ups may be spurious. */
  lemma EveryThreadCanGoOn(s: State, i: nat) returns (step: Step, t: State)
    requires Inv(s) && i < |s.threads|
    ensures Next(s, t, step) && !step.Adding? && step.i == i
    ensures match s.threads[i]
            case Outside => step.Entering?
            case Working(_, _) => step.Finishing?
            case Blocked(_) => step.Waking?
  {
    match s.threads[i]
    case Outside =>
      EnterIsBetween(s, i);
      step, t := Entering(i), Settled(s, Joined(s.q), s.threads, s.done, i);
    case Working(_, _) =>
      step := Finishing(i);
      t := FinishedState(s, i);
    case Blocked(_) =>
      WakeIsBetween(s, i);
      step, t := Waking(i), Settled(s, Woken(s.q), s.threads, s.done, i);
  }

  // ---- The loop's critical sections are the protocol's steps ----

  /** How the outcome shows in the state of thread i; the master's return is the verdict on its round. */
  ghost predicate Shows(o: Outcome, s: State, t: State, i: nat)
    requires i < |t.threads|
  {
    match o
    case Takes(batch, ok) => t.threads[i] == Working(batch, ok) && 1 <= |batch| <= Max(1, s.q.nBatchSize)
    case Waits => t.threads[i] == Blocked(false)
    case Returns(ok) => t.threads[i] == Outside && (i == 0 ==> (ok <==> AllHold(s.round)))
  }

  lemma SettleShows(s: State, q: Shared, threads: seq<Thread>, done: multiset<Check>, t: State, i: nat)
    requires Settles(s, q, threads, done, t, i) && q.nBatchSize == s.q.nBatchSize
    requires i == 0 && t.threads[0] == Outside ==> (t.result <==> AllHold(s.round))
    ensures Shows(Settle(q, i == 0).1, s, t, i)
  {
  }

  /** The outcome of the critical section is what the step shows. */
  lemma OutcomeShows(s: State, q: Shared, threads: seq<Thread>, done: multiset<Check>, step: Step, t: State, i: nat)
    requires Inv(s) && Next(s, t, step) && Settles(s, q, threads, done, t, i)
    requires !step.Adding? && step.i == i && q.nBatchSize == s.q.nBatchSize
    ensures Shows(Settle(q, i == 0).1, s, t, i)
  {
    if i == 0 && t.threads[0] == Outside {
      MasterLeaves(s, t, step);
    }
    SettleShows(s, q, threads, done, t, i);
  }

  /** A thread calls the loop. */
  method EnterLoop(cq: CCheckQueue, ghost s: State, i: nat) returns (o: Outcome, ghost t: State)
    requires Inv(s) && cq.State() == s.q && i < |s.threads| && s.threads[i] == Outside
    modifies cq
    ensures Enter(s, t, i) && cq.State() == t.q && Inv(t) && Shows(o, s, t, i)
  {
    EnterIsBetween(s, i);
    cq.Join();
    o := cq.Proceed(i == 0);
    t := Settled(s, Joined(s.q), s.threads, s.done, i);
    EnterKeepsInv(s, t, i);
    OutcomeShows(s, Joined(s.q), s.threads, s.done, Entering(i), t, i);
  }

  /** A thread is signalled, or wakes up spuriously. */
  method EndOfWait(cq: CCheckQueue, ghost s: State, i: nat) returns (o: Outcome, ghost t: State)
    requires Inv(s) && cq.State() == s.q && i < |s.threads| && s.threads[i].Blocked?
    modifies cq
    ensures Wake(s, t, i) && cq.State() == t.q && Inv(t) && Shows(o, s, t, i)
  {
    WakeIsBetween(s, i);
    cq.EndWait();
    o := cq.Proceed(i == 0);
    t := Settled(s, Woken(s.q), s.threads, s.done, i);
    WakeKeepsInv(s, t, i);
    OutcomeShows(s, Woken(s.q), s.threads, s.done, Waking(i), t, i);
  }

  /** A thread works off its batch and goes on. It lowers nTodo; the worker that brings it to zero, and no other thread,
      notifies the master, who is signalled by it if he waits. */
  method WorkOff(cq: CCheckQueue, ghost s: State, i: nat, vChecks: seq<Check>, start: bool)
    returns (notify: bool, o: Outcome, ghost t: State)
    requires Inv(s) && cq.State() == s.q && i < |s.threads| && s.threads[i] == Working(vChecks, start)
    modifies cq
    ensures Finish(s, t, i) && cq.State() == t.q && Inv(t) && Shows(o, s, t, i)
    ensures t.q.nTodo < s.q.nTodo && (notify <==> i != 0 && t.q.nTodo == 0)
    ensures notify && s.threads[0].Blocked? ==> t.threads[0] == Blocked(true)
  {
    var fOk := CCheckQueue.Execute(vChecks, start);
    notify := cq.Report(|vChecks|, fOk, i == 0);
    t := FinishedState(s, i);
    o := cq.Proceed(i == 0);
  }

  lemma FinishedState(s: State, i: nat) returns (t: State)
    requires Inv(s) && i < |s.threads| && s.threads[i].Working?
    ensures Finish(s, t, i) && Inv(t)
    ensures t.q.nTodo == s.q.nTodo - |s.threads[i].batch| < s.q.nTodo
    ensures t.q.nTodo == 0 && i != 0 && s.threads[0].Blocked? ==> t.threads[0] == Blocked(true)
    ensures var q := Reported(s, i).0;
            && (q.queue != [] ==> q.nTotal + q.nIdle >= 0)
            && t.q == Settle(q, i == 0).0 && Shows(Settle(q, i == 0).1, s, t, i)
  {
    FinishIsBetween(s, i);
    var (q, threads) := Reported(s, i);
    var done := s.done + multiset(s.threads[i].batch);
    t := Settled(s, q, threads, done, i);
    FinishKeepsInv(s, t, i);
    FinishLowersTodo(s, t, i);
    OutcomeShows(s, q, threads, done, Finishing(i), t, i);
  }

  /** Who is woken up when n checks are added: nobody for none, one waiting thread if there is any for one, and all
      waiting threads for more. */
  ghost predicate WokenUp(before: seq<Thread>, after: seq<Thread>, n: nat) {
    && |after| == |before|
    && (n == 0 ==> after == before)
    && (n == 1 && (exists i :: 0 <= i < |before| && before[i].Blocked?) ==> exists i :: 0 <= i < |after| && after[i] == Blocked(true))
    && (n > 1 ==> forall i :: 0 <= i < |before| && before[i].Blocked? ==> after[i] == Blocked(true))
  }

  lemma NotifiedAreWoken(before: seq<Thread>, after: seq<Thread>, checks: seq<Check>)
    requires Notified(before, after, NoticeFor(checks))
    ensures WokenUp(before, after, |checks|)
  {
    if |checks| == 1 {
      if i :| 0 <= i < |before| && before[i].Blocked? {
        assert before[i] == Blocked(false) || after[i] == Blocked(true);
      }
    }
  }

  /** A notification can always be given. */
  lemma SomeAreNotified(before: seq<Thread>, notice: Notice) returns (after: seq<Thread>)
    ensures Notified(before, after, notice)
  {
    if notice.NotifyAll? {
      after := seq(|before|, i requires 0 <= i < |before| => if before[i].Blocked? then Blocked(true) else before[i]);
    } else {
      after := before;
      if notice.NotifyOne? {
        if i :| 0 <= i < |before| && before[i] == Blocked(false) {
          after := before[i := Blocked(true)];
        }
      }
    }
  }

  /** The master adds checks; whichever waiting workers the notification reaches, this is the protocol's step, and the
      right ones are woken up. */
  method AddChecks(cq: CCheckQueue, ghost s: State, vChecks: seq<Check>) returns (notify: Notice)
    requires Inv(s) && cq.State() == s.q && s.threads[0] == Outside
    modifies cq
    ensures exists threads :: Notified(s.threads, threads, notify)
    ensures forall threads :: Notified(s.threads, threads, notify) ==>
              var t := State(cq.State(), threads, s.round + multiset(vChecks), s.done, s.result);
              Add(s, t, vChecks, threads) && Inv(t) && WokenUp(s.threads, t.threads, |vChecks|)
  {
    notify := cq.Add(vChecks);
    var some := SomeAreNotified(s.threads, notify);
    forall threads | Notified(s.threads, threads, notify)
      ensures var t := State(cq.State(), threads, s.round + multiset(vChecks), s.done, s.result);
              Add(s, t, vChecks, threads) && Inv(t) && WokenUp(s.threads, t.threads, |vChecks|)
    {
      AddKeepsInv(s, State(cq.State(), threads, s.round + multiset(vChecks), s.done, s.result), vChecks, threads);
      NotifiedAreWoken(s.threads, threads, vChecks);
    }
  }
}
