/** The parallel check queue: one master, any number of workers, one mutex. */
module CheckQueue {
  import Radix

  /** A queued verification and what it evaluates to. */
  datatype Check = Check(id: nat, holds: bool)

  /** What the mutex protects. */
  datatype Shared = Shared(
    queue: seq<Check>,       // a stack, top last
    nIdle: int,
    nTotal: int,
    fAllOk: bool,
    nTodo: int,
    fQuit: bool,
    nBatchSize: nat)

  /** How a critical section ends: with a batch to work on, in a wait, or with the loop's result. */
  datatype Outcome = Takes(batch: seq<Check>, ok: bool) | Waits | Returns(ok: bool)

  function Min(a: int, b: int): int {
    if a < b then a else b
  }

  function Max(a: int, b: int): int {
    if a < b then b else a
  }

  /** A share of the queue for each thread, at least one check and at most a full batch. */
  function BatchSize(q: Shared): (n: nat)
    requires q.queue != [] && q.nTotal + q.nIdle >= 0
    ensures 1 <= n <= |q.queue| && n <= (if q.nBatchSize == 0 then 1 else q.nBatchSize)
    ensures n > 1 ==> n * (q.nTotal + q.nIdle + 1) <= |q.queue|
    ensures n < q.nBatchSize ==> |q.queue| < (n + 1) * (q.nTotal + q.nIdle + 1)
  {
    var threads := q.nTotal + q.nIdle + 1;
    var share := Radix.Quotient(|q.queue|, threads);
    Radix.Mul(1, threads, share);
    Radix.Mul(q.nBatchSize, share, threads);
    Radix.Mul(share, 1, threads);
    Max(1, Min(q.nBatchSize, share))
  }

  /** The top n checks, top first. */
  function Top(queue: seq<Check>, n: nat): seq<Check>
    requires n <= |queue|
  {
    seq(n, i requires 0 <= i < n => queue[|queue| - 1 - i])
  }

  /** A thread that enters the loop is counted. */
  function Joined(q: Shared): Shared {
    q.(nTotal := q.nTotal + 1)
  }

  /** A batch of n checks with outcome ok is counted off. */
  function Counted(q: Shared, n: nat, ok: bool): Shared {
    q.(fAllOk := q.fAllOk && ok, nTodo := q.nTodo - n)
  }

  /** A thread that ends a wait is idle no more. */
  function Woken(q: Shared): Shared {
    q.(nIdle := q.nIdle - 1)
  }

  /** How many workers Add notifies: none, one, or all. */
  datatype Notice = NotifyNone | NotifyOne | NotifyAll

  function NoticeFor(checks: seq<Check>): Notice {
    if |checks| == 0 then NotifyNone else if |checks| == 1 then NotifyOne else NotifyAll
  }

  /** The inner loop of the critical section, up to the next wait. */
  function Settle(q: Shared, master: bool): (Shared, Outcome)
    requires q.queue != [] ==> q.nTotal + q.nIdle >= 0
  {
    if q.queue != [] then
      var n := BatchSize(q);
      (q.(queue := q.queue[..|q.queue| - n]), Takes(Top(q.queue, n), q.fAllOk))
    else if (master || q.fQuit) && q.nTodo == 0 then
      (q.(nTotal := q.nTotal - 1, fAllOk := if master then true else q.fAllOk), Returns(q.fAllOk))
    else
      (q.(nIdle := q.nIdle + 1), Waits)
  }

  /** The outcome of a batch: once something failed the rest is skipped. */
  function Run(batch: seq<Check>, ok: bool): (r: bool) {
    ok && forall c :: c in batch ==> c.holds
  }

  class CCheckQueue {
    var queue: seq<Check>
    var nIdle: int
    var nTotal: int
    var fAllOk: bool
    var nTodo: int
    var fQuit: bool
    const nBatchSize: nat

    constructor (nBatchSizeIn: nat)
      ensures State() == Shared([], 0, 0, true, 0, false, nBatchSizeIn)
    {
      queue, nIdle, nTotal, fAllOk, nTodo, fQuit := [], 0, 0, true, 0, false;
      nBatchSize := nBatchSizeIn;
    }

    function State(): Shared reads this {
      Shared(queue, nIdle, nTotal, fAllOk, nTodo, fQuit, nBatchSize)
    }

    /** First pass of the loop: the thread joins. */
    method Join()
      modifies this
      ensures State() == Joined(old(State()))
    {
      nTotal := nTotal + 1;
    }

    /** Later passes: the results of a batch are counted. Says whether the master is to be notified. */
    method Report(nNow: nat, fOk: bool, fMaster: bool) returns (notify: bool)
      modifies this
      ensures State() == Counted(old(State()), nNow, fOk)
      ensures notify <==> nTodo == 0 && !fMaster
    {
      fAllOk := fAllOk && fOk;
      nTodo := nTodo - nNow;
      notify := nTodo == 0 && !fMaster;
    }

    /** A wait is over. */
    method EndWait()
      modifies this
      ensures State() == Woken(old(State()))
    {
      nIdle := nIdle - 1;
    }

    /** The rest of the critical section; jobs are moved one by one from the queue to the batch. */
    method Proceed(fMaster: bool) returns (o: Outcome)
      requires queue != [] ==> nTotal + nIdle >= 0
      modifies this
      ensures (State(), o) == Settle(old(State()), fMaster)
      ensures nTodo == old(nTodo) && fQuit == old(fQuit)
      ensures match o
              case Takes(batch, ok) =>
                && old(queue) != [] && ok == old(fAllOk) && nIdle == old(nIdle) && nTotal == old(nTotal) && fAllOk == old(fAllOk)
                && batch != [] && old(queue) == queue + Radix.Reversed(batch)
                && |batch| <= (if nBatchSize == 0 then 1 else nBatchSize)
                && (|batch| > 1 ==> |batch| * (nTotal + nIdle + 1) <= |old(queue)|)
                && (|batch| < nBatchSize ==> |old(queue)| < (|batch| + 1) * (nTotal + nIdle + 1))
              case Waits =>
                && old(queue) == queue == [] && nIdle == old(nIdle) + 1 && nTotal == old(nTotal) && fAllOk == old(fAllOk)
                && (nTodo != 0 || (!fMaster && !fQuit))
              case Returns(ok) =>
                && old(queue) == queue == [] && nTodo == 0 && (fMaster || fQuit) && ok == old(fAllOk)
                && nTotal == old(nTotal) - 1 && nIdle == old(nIdle) && fAllOk == (fMaster || old(fAllOk))
    {
      if queue == [] {
        if (fMaster || fQuit) && nTodo == 0 {
          nTotal := nTotal - 1;
          var fRet := fAllOk;
          if fMaster {
            fAllOk := true;
          }
          return Returns(fRet);
        }
        nIdle := nIdle + 1;
        return Waits;
      }
      var nNow := BatchSize(State());
      var vChecks := [];
      var i := 0;
      while i < nNow
        invariant 0 <= i <= nNow
        invariant vChecks == Top(old(queue), i)
        invariant State() == old(State()).(queue := old(queue)[..|old(queue)| - i])
      {
        vChecks := vChecks + [queue[|queue| - 1]];
        queue := queue[..|queue| - 1];
        i := i + 1;
      }
      return Takes(vChecks, fAllOk);
    }

    /** Outside the mutex: the checks of a batch are run until one fails. */
    static method Execute(vChecks: seq<Check>, start: bool) returns (fOk: bool)
      ensures fOk == Run(vChecks, start)
    {
      fOk := start;
      for i := 0 to |vChecks|
        invariant fOk == Run(vChecks[..i], start)
      {
        if fOk {
          fOk := vChecks[i].holds;
        }
        assert vChecks[..i + 1] == vChecks[..i] + [vChecks[i]];
      }
      assert vChecks[..|vChecks|] == vChecks;
    }

    method Add(vChecks: seq<Check>) returns (notify: Notice)
      modifies this
      ensures State() == old(State()).(queue := old(queue) + vChecks, nTodo := old(nTodo) + |vChecks|)
      ensures notify == NoticeFor(vChecks)
      ensures (notify == NotifyOne <==> |vChecks| == 1) && (notify == NotifyAll <==> |vChecks| > 1)
    {
      for i := 0 to |vChecks|
        invariant State() == old(State()).(queue := old(queue) + vChecks[..i])
      {
        queue := queue + [vChecks[i]];
      }
      nTodo := nTodo + |vChecks|;
      notify := NotifyNone;
      if |vChecks| == 1 {
        notify := NotifyOne;
      } else if |vChecks| > 1 {
        notify := NotifyAll;
      }
    }
  }
}
