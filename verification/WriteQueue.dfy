/** Write as a protocol: any number of writers, interleaved at the points where the mutex is released. */
module WriteQueue {
  import opened Options
  import opened GroupCommit

  /** Where a writer stands. Leading writers hold the queue's front; Writing runs without the mutex. */
  datatype PC = Waiting | MakingRoom | Writing(n: nat, start: nat, ops: seq<Op>) | Done(ok: bool) | Returned(ok: bool)

  /** One finished group: its members in order, the first of them the leader. Its operations own the sequence
      numbers start + 1, start + 2, ...; the first `applied` of them reached the memtable. */
  datatype Group = Group(members: seq<nat>, ok: bool, start: nat, ops: seq<Op>, applied: nat) {
    /** What the group put into the memtable. */
    function Contribution(): seq<(nat, Op)> {
      Numbered(start, if applied <= |ops| then ops[..applied] else ops)
    }
  }

  datatype State = State(
    clients: seq<Writer>,        // every request so far, by arrival; a writer's id is its index
    queue: seq<nat>,
    pc: seq<PC>,
    awake: set<nat>,             // threads not blocked in a condition wait
    lastSequence: nat,
    memtable: seq<(nat, Op)>,
    groups: seq<Group>)          // history

  function Requests(clients: seq<Writer>, ids: seq<nat>): seq<Writer>
    requires forall i :: i in ids ==> i < |clients|
  {
    seq(|ids|, j requires 0 <= j < |ids| => assert ids[j] in ids; clients[ids[j]])
  }

  function Numbered(start: nat, ops: seq<Op>): seq<(nat, Op)> {
    seq(|ops|, i requires 0 <= i < |ops| => (start + 1 + i, ops[i]))
  }

  function Ids(n: nat): seq<nat> {
    seq(n, i => i)
  }

  predicate Init(s: State, last: nat) {
    s == State([], [], [], {}, last, [], [])
  }

  /** A writer joins the queue; it blocks at once unless it is at the front. */
  predicate Arrive(s: State, t: State, w: Writer) {
    && w.WellFormed()
    && t == s.(clients := s.clients + [w], queue := s.queue + [|s.clients|], pc := s.pc + [Waiting],
               awake := if s.queue == [] then s.awake + {|s.clients|} else s.awake)
  }

  /** A condition wait may return at any time; the writer then looks again and goes back to sleep. */
  predicate Wake(s: State, t: State, i: nat) {
    i < |s.pc| && s.pc[i] == Waiting && t == s.(awake := s.awake + {i})
  }

  predicate Sleep(s: State, t: State, i: nat) {
    i < |s.pc| && s.pc[i] == Waiting && s.queue != [] && s.queue[0] != i && t == s.(awake := s.awake - {i})
  }

  /** The front writer, awake, starts to lead. */
  predicate Lead(s: State, t: State, i: nat) {
    && i < |s.pc| && s.pc[i] == Waiting && i in s.awake && s.queue != [] && s.queue[0] == i
    && t == s.(pc := s.pc[i := MakingRoom])
  }

  /** The first n writers leave the queue with one status; the followers are signalled, and so is the new front. */
  function Finish(s: State, n: nat, g: Group): State
    requires 1 <= n <= |s.queue| && forall i :: i in s.queue ==> i < |s.pc|
  {
    s.(queue := s.queue[n..],
       pc := seq(|s.pc|, i requires 0 <= i < |s.pc| =>
                   if i == s.queue[0] then Returned(g.ok) else if i in s.queue[1..n] then Done(g.ok) else s.pc[i]),
       awake := s.awake + (set i | i in s.queue[1..n]) + (if n < |s.queue| then {s.queue[n]} else {}),
       groups := s.groups + [g])
  }

  predicate Front(s: State, i: nat) {
    && i < |s.pc| && i < |s.clients| && s.queue != [] && s.queue[0] == i
    && forall j :: j in s.queue ==> j < |s.pc| && j < |s.clients|
  }

  /** Room could not be made, or there is no batch to write: the leader leaves alone. */
  predicate LeaveAlone(s: State, t: State, i: nat, ok: bool) {
    && Front(s, i) && s.pc[i] == MakingRoom && (ok ==> s.clients[i].batch.None?)
    && t == Finish(s, 1, Group([i], ok, s.lastSequence, [], 0))
  }

  /** Room was made: the leader picks its group and numbers its operations, then releases the mutex. */
  ghost predicate StartWriting(s: State, t: State, i: nat, n: nat) {
    && Front(s, i) && s.pc[i] == MakingRoom && s.clients[i].batch.Some?
    && var ws := Requests(s.clients, s.queue);
       && Fits(ws, n) && (n == |ws| || !Fits(ws, n + 1))
       && t == s.(pc := s.pc[i := Writing(n, s.lastSequence, AllOps(ws, n))])
  }

  /** The log append, the sync and the insertion are over. Only on success are all operations applied;
      a failed insertion may have applied some. The sequence numbers are spent either way. */
  predicate EndWriting(s: State, t: State, i: nat, ok: bool, applied: nat) {
    && Front(s, i) && s.pc[i].Writing?
    && var p := s.pc[i];
       && 1 <= p.n <= |s.queue| && applied <= |p.ops| && (ok ==> applied == |p.ops|)
       && t == Finish(s, p.n, Group(s.queue[..p.n], ok, p.start, p.ops, applied))
                 .(lastSequence := p.start + |p.ops|, memtable := s.memtable + Numbered(p.start, p.ops[..applied]))
  }

  predicate Return(s: State, t: State, i: nat) {
    i < |s.pc| && s.pc[i].Done? && i in s.awake && t == s.(pc := s.pc[i := Returned(s.pc[i].ok)])
  }

  /** Which thread does what; the environment chooses, including how log, sync and insertion turn out. */
  datatype Step =
    | Arriving(w: Writer)
    | Waking(i: nat)
    | Sleeping(i: nat)
    | Taking(i: nat)
    | Leaving(i: nat, ok: bool)
    | Starting(i: nat, n: nat)
    | Ending(i: nat, ok: bool, applied: nat)
    | Returning(i: nat)

  ghost predicate Next(s: State, t: State, step: Step) {
    match step
    case Arriving(w) => Arrive(s, t, w)
    case Waking(i) => Wake(s, t, i)
    case Sleeping(i) => Sleep(s, t, i)
    case Taking(i) => Lead(s, t, i)
    case Leaving(i, ok) => LeaveAlone(s, t, i, ok)
    case Starting(i, n) => StartWriting(s, t, i, n)
    case Ending(i, ok, applied) => EndWriting(s, t, i, ok, applied)
    case Returning(i) => Return(s, t, i)
  }

  // ---- What every run keeps ----

  /** All members of the first n finished groups, in the order they left the queue. */
  function Handled(groups: seq<Group>, n: nat): seq<nat>
    requires n <= |groups|
  {
    if n == 0 then [] else Handled(groups, n - 1) + groups[n - 1].members
  }

  /** The last sequence number spent by the first n groups. */
  function LastOf(last: nat, groups: seq<Group>, n: nat): nat
    requires n <= |groups|
  {
    if n == 0 then last else LastOf(last, groups, n - 1) + |groups[n - 1].ops|
  }

  /** What the first n groups put into the memtable. */
  function MemOf(groups: seq<Group>, n: nat): seq<(nat, Op)>
    requires n <= |groups|
  {
    if n == 0 then [] else MemOf(groups, n - 1) + groups[n - 1].Contribution()
  }

  /** What a group promises: it was led by its first member, no sync writer rode under a leader that does not sync,
      it kept to the size limit, and on success it committed exactly its members' operations. */
  ghost predicate GroupOk(clients: seq<Writer>, g: Group) {
    && g.members != [] && (forall i :: i in g.members ==> i < |clients|)
    && g.applied <= |g.ops|
    && var ws := Requests(clients, g.members);
       && Fits(ws, |ws|)
       && (g.ok ==> g.applied == |g.ops|)
       && (g.ok || g.ops != [] ==> g.ops == AllOps(ws, |ws|))
  }

  predicate Finished(p: PC, ok: bool) {
    p == Done(ok) || p == Returned(ok)
  }

  /** FIFO: those handled, followed by those queued, are all arrivals in order of arrival. */
  ghost predicate Fifo(s: State) {
    Handled(s.groups, |s.groups|) + s.queue == Ids(|s.clients|)
  }

  ghost predicate Control(s: State) {
    && |s.pc| == |s.clients|
    && (forall i :: 0 <= i < |s.clients| ==> s.clients[i].WellFormed())
    && (forall j :: 0 < j < |s.queue| ==> s.queue[j] < |s.pc| && s.pc[s.queue[j]] == Waiting)
    && (s.queue != [] ==> s.queue[0] in s.awake && s.queue[0] < |s.pc| && !s.pc[s.queue[0]].Done? && !s.pc[s.queue[0]].Returned?)
    && (forall i :: 0 <= i < |s.pc| && s.pc[i].Done? ==> i in s.awake)
  }

  /** Every member of a finished group has that group's status. */
  ghost predicate Recorded(pc: seq<PC>, g: Group) {
    forall j :: 0 <= j < |g.members| ==> g.members[j] < |pc| && Finished(pc[g.members[j]], g.ok)
  }

  ghost predicate Records(s: State) {
    forall k :: 0 <= k < |s.groups| ==> Recorded(s.pc, s.groups[k])
  }

  ghost predicate Leader(s: State)
    requires Control(s) && Fifo(s)
  {
    s.queue != [] && s.pc[s.queue[0]].Writing? ==>
      var p := s.pc[s.queue[0]];
      && (forall i :: i in s.queue ==> i < |s.clients|)
      && Fits(Requests(s.clients, s.queue), p.n) && p.start == s.lastSequence
      && p.ops == AllOps(Requests(s.clients, s.queue), p.n)
  }

  ghost predicate GroupsOk(s: State) {
    forall k :: 0 <= k < |s.groups| ==> GroupOk(s.clients, s.groups[k])
  }

  ghost predicate StartsAfter(groups: seq<Group>, last: nat, k: nat)
    requires k < |groups|
  {
    groups[k].start == LastOf(last, groups, k)
  }

  /** Each group's numbers start where the last group's ended, and the memtable holds the groups' operations in order. */
  ghost predicate Ledger(groups: seq<Group>, memtable: seq<(nat, Op)>, lastSequence: nat, last: nat) {
    && (forall k :: 0 <= k < |groups| ==> StartsAfter(groups, last, k))
    && lastSequence == LastOf(last, groups, |groups|)
    && memtable == MemOf(groups, |groups|)
  }

  ghost predicate Inv(s: State, last: nat) {
    Fifo(s) && Control(s) && Records(s) && Leader(s) && GroupsOk(s)
    && Ledger(s.groups, s.memtable, s.lastSequence, last)
  }

  // ---- Every step keeps the invariant ----

  lemma {:induction false} OneMoreGroup(last: nat, groups: seq<Group>, g: Group, n: nat)
    requires n <= |groups|
    ensures Handled(groups + [g], n) == Handled(groups, n)
    ensures LastOf(last, groups + [g], n) == LastOf(last, groups, n)
    ensures MemOf(groups + [g], n) == MemOf(groups, n)
  {
    if n > 0 {
      OneMoreGroup(last, groups, g, n - 1);
      assert (groups + [g])[n - 1] == groups[n - 1];
    }
  }

  lemma RequestsStable(clients: seq<Writer>, w: Writer, ids: seq<nat>)
    requires forall i :: i in ids ==> i < |clients|
    ensures forall i :: i in ids ==> i < |clients + [w]|
    ensures Requests(clients + [w], ids) == Requests(clients, ids)
  {
    forall j | 0 <= j < |ids|
      ensures Requests(clients + [w], ids)[j] == Requests(clients, ids)[j]
    {
      assert ids[j] in ids;
    }
  }

  lemma InvInit(s: State, last: nat)
    requires Init(s, last)
    ensures Inv(s, last)
  {
  }

  lemma QueueOrder(s: State)
    requires Fifo(s)
    ensures |Handled(s.groups, |s.groups|)| + |s.queue| == |s.clients|
    ensures forall j :: 0 <= j < |s.queue| ==> s.queue[j] == |s.clients| - |s.queue| + j
    ensures forall j :: 0 <= j < |Handled(s.groups, |s.groups|)| ==> Handled(s.groups, |s.groups|)[j] == j
    ensures forall i :: |Handled(s.groups, |s.groups|)| <= i < |s.clients| ==> i in s.queue
  {
    var h := Handled(s.groups, |s.groups|);
    assert |h + s.queue| == |s.clients|;
    forall j | 0 <= j < |s.queue| ensures s.queue[j] == |h| + j {
      assert (h + s.queue)[|h| + j] == s.queue[j];
    }
    forall j | 0 <= j < |h| ensures h[j] == j {
      assert (h + s.queue)[j] == h[j];
    }
    forall i | |h| <= i < |s.clients| ensures i in s.queue {
      assert s.queue[i - |h|] == i;
    }
  }

  /** A step that leaves finished writers finished, and adds no group, keeps the records. */
  lemma StillRecorded(s: State, t: State)
    requires Records(s) && t.groups == s.groups && |s.pc| <= |t.pc|
    requires forall i, ok :: 0 <= i < |s.pc| && Finished(s.pc[i], ok) ==> Finished(t.pc[i], ok)
    ensures Records(t)
  {
    forall k | 0 <= k < |t.groups| ensures Recorded(t.pc, t.groups[k]) {
      assert Recorded(s.pc, s.groups[k]);
    }
  }

  lemma ArriveFifo(s: State, t: State, w: Writer)
    requires Fifo(s) && Arrive(s, t, w)
    ensures Fifo(t)
  {
    var h := Handled(s.groups, |s.groups|);
    assert h + t.queue == (h + s.queue) + [|s.clients|];
    assert Ids(|t.clients|) == Ids(|s.clients|) + [|s.clients|];
  }

  lemma ArriveControl(s: State, t: State, w: Writer)
    requires Fifo(s) && Control(s) && Arrive(s, t, w)
    ensures Control(t)
  {
    QueueOrder(s);
  }

  lemma ArriveLeader(s: State, t: State, w: Writer)
    requires Fifo(s) && Control(s) && Leader(s) && Arrive(s, t, w)
    requires Fifo(t) && Control(t)
    ensures Leader(t)
  {
    QueueOrder(s);
    if s.queue != [] && s.pc[s.queue[0]].Writing? {
      var p := s.pc[s.queue[0]];
      assert t.pc[t.queue[0]] == p;
      RequestsStable(s.clients, w, s.queue);
      var ws, vs := Requests(s.clients, s.queue), Requests(t.clients, t.queue);
      forall j | 0 <= j < |ws| ensures ws[j] == vs[j] {
        assert t.queue[j] == s.queue[j];
      }
      SamePrefix(ws, vs, p.n);
    }
  }

  lemma ArriveGroups(s: State, t: State, w: Writer)
    requires GroupsOk(s) && Arrive(s, t, w)
    ensures GroupsOk(t)
  {
    forall k | 0 <= k < |s.groups| ensures GroupOk(t.clients, t.groups[k]) {
      assert GroupOk(s.clients, s.groups[k]);
      RequestsStable(s.clients, w, s.groups[k].members);
    }
  }

  lemma ArriveKeepsInv(s: State, t: State, w: Writer, last: nat)
    requires Inv(s, last) && Arrive(s, t, w)
    ensures Inv(t, last)
  {
    ArriveFifo(s, t, w);
    ArriveControl(s, t, w);
    StillRecorded(s, t);
    ArriveLeader(s, t, w);
    ArriveGroups(s, t, w);
  }

  /** A group leaves: the effect of both LeaveAlone and EndWriting. */
  ghost predicate Commit(s: State, t: State, n: nat, g: Group) {
    && 1 <= n <= |s.queue| && (forall i :: i in s.queue ==> i < |s.pc|)
    && g.members == s.queue[..n] && g.start == s.lastSequence && GroupOk(s.clients, g)
    && t == Finish(s, n, g).(lastSequence := g.start + |g.ops|, memtable := s.memtable + g.Contribution())
  }

  lemma CommitFifo(s: State, t: State, n: nat, g: Group)
    requires Fifo(s) && Commit(s, t, n, g)
    ensures Fifo(t)
  {
    OneMoreGroup(0, s.groups, g, |s.groups|);
    var h := Handled(s.groups, |s.groups|);
    assert Handled(t.groups, |t.groups|) == h + s.queue[..n];
    assert (h + s.queue[..n]) + s.queue[n..] == h + s.queue;
  }

  lemma CommitControl(s: State, t: State, n: nat, g: Group)
    requires Fifo(s) && Control(s) && Commit(s, t, n, g)
    ensures Control(t)
    ensures t.queue != [] ==> t.pc[t.queue[0]] == Waiting
  {
    QueueOrder(s);
    forall j | 0 <= j < |t.queue| ensures t.queue[j] < |t.pc| && t.pc[t.queue[j]] == Waiting {
      assert t.queue[j] == s.queue[n + j];
      assert s.queue[n + j] !in s.queue[1..n];
    }
  }

  lemma CommitRecords(s: State, t: State, n: nat, g: Group)
    requires Fifo(s) && Control(s) && Records(s) && Commit(s, t, n, g)
    ensures Records(t)
  {
    forall j | 0 <= j < n ensures Finished(t.pc[s.queue[j]], g.ok) {
      assert s.queue[j] in s.queue;
      assert j > 0 ==> s.queue[1..n][j - 1] == s.queue[j];
    }
    forall k | 0 <= k < |s.groups| ensures Recorded(t.pc, t.groups[k]) {
      assert Recorded(s.pc, s.groups[k]);
      forall j | 0 <= j < |s.groups[k].members| ensures t.pc[s.groups[k].members[j]] == s.pc[s.groups[k].members[j]] {
        var i := s.groups[k].members[j];
        assert Finished(s.pc[i], s.groups[k].ok);
      }
    }
  }

  lemma CommitGroups(s: State, t: State, n: nat, g: Group)
    requires GroupsOk(s) && Commit(s, t, n, g)
    ensures GroupsOk(t)
  {
    forall k | 0 <= k < |t.groups| ensures GroupOk(t.clients, t.groups[k]) {
      if k < |s.groups| {
        assert t.groups[k] == s.groups[k] && GroupOk(s.clients, s.groups[k]);
      } else {
        assert t.groups[k] == g;
      }
    }
  }

  lemma LedgerOneMore(groups: seq<Group>, memtable: seq<(nat, Op)>, lastSequence: nat, last: nat, g: Group)
    requires Ledger(groups, memtable, lastSequence, last) && g.start == lastSequence
    ensures Ledger(groups + [g], memtable + g.Contribution(), g.start + |g.ops|, last)
  {
    forall k | 0 <= k <= |groups| ensures StartsAfter(groups + [g], last, k) {
      OneMoreGroup(last, groups, g, k);
      assert k < |groups| ==> StartsAfter(groups, last, k);
    }
    OneMoreGroup(last, groups, g, |groups|);
  }

  lemma CommitKeepsInv(s: State, t: State, n: nat, g: Group, last: nat)
    requires Inv(s, last) && Commit(s, t, n, g)
    ensures Inv(t, last)
  {
    CommitFifo(s, t, n, g);
    CommitControl(s, t, n, g);
    CommitRecords(s, t, n, g);
    CommitGroups(s, t, n, g);
    LedgerOneMore(s.groups, s.memtable, s.lastSequence, last, g);
  }

  lemma LeaveAloneIsCommit(s: State, t: State, i: nat, ok: bool, last: nat)
    requires Inv(s, last) && LeaveAlone(s, t, i, ok)
    ensures Commit(s, t, 1, Group([i], ok, s.lastSequence, [], 0))
  {
    var g := Group([i], ok, s.lastSequence, [], 0);
    var ws := Requests(s.clients, g.members);
    assert ws[0] == s.clients[i];
    assert AllOps(ws, 1) == AllOps(ws, 0) + ws[0].Ops();
    assert TotalBytes(ws, 1) == TotalBytes(ws, 0) + ws[0].Bytes();
    assert s.memtable + Numbered(g.start, []) == s.memtable;
  }

  lemma EndWritingIsCommit(s: State, t: State, i: nat, ok: bool, applied: nat, last: nat)
    requires Inv(s, last) && EndWriting(s, t, i, ok, applied)
    ensures Commit(s, t, s.pc[i].n, Group(s.queue[..s.pc[i].n], ok, s.lastSequence, s.pc[i].ops, applied))
  {
    var p := s.pc[i];
    var g := Group(s.queue[..p.n], ok, p.start, p.ops, applied);
    var ws, vs := Requests(s.clients, s.queue), Requests(s.clients, g.members);
    forall j | 0 <= j < p.n ensures vs[j] == ws[j] {
      assert g.members[j] == s.queue[j];
    }
    SamePrefix(ws, vs, p.n);
  }

  lemma WaitStepKeepsInv(s: State, t: State, i: nat, last: nat)
    requires Inv(s, last)
    requires Wake(s, t, i) || Sleep(s, t, i)
    ensures Inv(t, last)
  {
    QueueOrder(s);
    StillRecorded(s, t);
  }

  lemma LocalStepKeepsInv(s: State, t: State, i: nat, last: nat)
    requires Inv(s, last)
    requires Lead(s, t, i) || Return(s, t, i)
    ensures Inv(t, last)
  {
    QueueOrder(s);
    StillRecorded(s, t);
  }

  lemma StartWritingKeepsInv(s: State, t: State, i: nat, n: nat, last: nat)
    requires Inv(s, last) && StartWriting(s, t, i, n)
    ensures Inv(t, last)
  {
    QueueOrder(s);
    StillRecorded(s, t);
  }

  lemma NextKeepsInv(s: State, t: State, step: Step, last: nat)
    requires Inv(s, last) && Next(s, t, step)
    ensures Inv(t, last)
  {
    match step
    case Arriving(w) => ArriveKeepsInv(s, t, w, last);
    case Waking(i) => WaitStepKeepsInv(s, t, i, last);
    case Sleeping(i) => WaitStepKeepsInv(s, t, i, last);
    case Taking(i) => LocalStepKeepsInv(s, t, i, last);
    case Returning(i) => LocalStepKeepsInv(s, t, i, last);
    case Starting(i, n) => StartWritingKeepsInv(s, t, i, n, last);
    case Leaving(i, ok) =>
      LeaveAloneIsCommit(s, t, i, ok, last);
      CommitKeepsInv(s, t, 1, Group([i], ok, s.lastSequence, [], 0), last);
    case Ending(i, ok, applied) =>
      EndWritingIsCommit(s, t, i, ok, applied, last);
      CommitKeepsInv(s, t, s.pc[i].n, Group(s.queue[..s.pc[i].n], ok, s.lastSequence, s.pc[i].ops, applied), last);
  }

  // ---- What this means for callers, in every reachable state ----

  /** A run of the protocol, from a database whose last sequence number is `last`. */
  ghost predicate Behavior(trace: seq<State>, steps: seq<Step>, last: nat) {
    && |trace| == |steps| + 1 && Init(trace[0], last)
    && forall i :: 0 <= i < |steps| ==> StepAt(trace, steps, i)
  }

  ghost predicate StepAt(trace: seq<State>, steps: seq<Step>, i: nat)
    requires i < |steps| && |trace| == |steps| + 1
  {
    Next(trace[i], trace[i + 1], steps[i])
  }

  lemma {:induction false} RunKeepsInv(trace: seq<State>, steps: seq<Step>, last: nat, i: nat)
    requires Behavior(trace, steps, last) && i < |trace|
    ensures Inv(trace[i], last)
  {
    if i == 0 {
      InvInit(trace[0], last);
    } else {
      RunKeepsInv(trace, steps, last, i - 1);
      assert StepAt(trace, steps, i - 1);
      NextKeepsInv(trace[i - 1], trace[i], steps[i - 1], last);
    }
  }

  lemma {:induction false} HandledAt(groups: seq<Group>, n: nat, k: nat, j: nat)
    requires k < n <= |groups| && j < |groups[k].members|
    ensures |Handled(groups, k)| + j < |Handled(groups, n)|
    ensures Handled(groups, n)[|Handled(groups, k)| + j] == groups[k].members[j]
  {
    if k < n - 1 {
      HandledAt(groups, n - 1, k, j);
    }
  }

  /** Every request has left the queue with exactly one group, or is still queued: groups take the
      requests in order of arrival, each group a contiguous stretch. */
  lemma GroupsAreFifo(s: State, k: nat, j: nat)
    requires Fifo(s) && k < |s.groups| && j < |s.groups[k].members|
    ensures s.groups[k].members[j] == |Handled(s.groups, k)| + j
    ensures s.groups[k].members[j] !in s.queue
  {
    HandledAt(s.groups, |s.groups|, k, j);
    QueueOrder(s);
  }

  lemma {:induction false} HandledGrows(groups: seq<Group>, k: nat, n: nat)
    requires k <= n <= |groups|
    ensures |Handled(groups, k)| <= |Handled(groups, n)|
  {
    if k < n {
      HandledGrows(groups, k, n - 1);
    }
  }

  lemma OneLeaderEach(s: State, k: nat, m: nat, a: nat, b: nat)
    requires Fifo(s) && k < m < |s.groups|
    requires a < |s.groups[k].members| && b < |s.groups[m].members|
    ensures s.groups[k].members[a] < s.groups[m].members[b]
  {
    GroupsAreFifo(s, k, a);
    GroupsAreFifo(s, m, b);
    HandledGrows(s.groups, k + 1, m);
  }

  lemma {:induction false} HandledIsCovered(groups: seq<Group>, n: nat, x: nat) returns (k: nat, j: nat)
    requires n <= |groups| && x < |Handled(groups, n)|
    ensures k < n && j < |groups[k].members| && groups[k].members[j] == Handled(groups, n)[x]
  {
    if x < |Handled(groups, n - 1)| {
      k, j := HandledIsCovered(groups, n - 1, x);
    } else {
      k, j := n - 1, x - |Handled(groups, n - 1)|;
    }
  }

  lemma {:induction false} LastOfGrows(last: nat, groups: seq<Group>, k: nat, n: nat)
    requires k <= n <= |groups|
    ensures LastOf(last, groups, k) <= LastOf(last, groups, n)
    ensures k < n ==> LastOf(last, groups, k) + |groups[k].ops| <= LastOf(last, groups, n)
  {
    if k < n {
      LastOfGrows(last, groups, k, n - 1);
    }
  }

  /** Sequence numbers are handed out once: later groups start beyond everything earlier groups own,
      whether those succeeded or not, and nothing lies beyond lastSequence. */
  lemma NumbersNeverReused(s: State, last: nat, k: nat, m: nat)
    requires Inv(s, last) && k < m < |s.groups|
    ensures last <= s.groups[k].start
    ensures s.groups[k].start + |s.groups[k].ops| <= s.groups[m].start
    ensures s.groups[m].start + |s.groups[m].ops| <= s.lastSequence
  {
    assert StartsAfter(s.groups, last, k) && StartsAfter(s.groups, last, m);
    LastOfGrows(last, s.groups, 0, k);
    LastOfGrows(last, s.groups, k, m);
    LastOfGrows(last, s.groups, m, |s.groups|);
  }

  /** The memtable grows by strictly increasing sequence numbers, so nothing is applied twice. */
  lemma {:induction false} MemtableIncreases(groups: seq<Group>, last: nat, n: nat)
    requires n <= |groups| && forall k :: 0 <= k < |groups| ==> StartsAfter(groups, last, k)
    ensures forall a, b :: 0 <= a < b < |MemOf(groups, n)| ==> MemOf(groups, n)[a].0 < MemOf(groups, n)[b].0
    ensures forall a :: 0 <= a < |MemOf(groups, n)| ==> last < MemOf(groups, n)[a].0 <= LastOf(last, groups, n)
  {
    if n > 0 {
      MemtableIncreases(groups, last, n - 1);
      LastOfGrows(last, groups, 0, n - 1);
      assert StartsAfter(groups, last, n - 1);
      var before, more := MemOf(groups, n - 1), groups[n - 1].Contribution();
      forall x | 0 <= x < |more| ensures LastOf(last, groups, n - 1) < more[x].0 <= LastOf(last, groups, n) {}
      AppendIncreasing(before, more, LastOf(last, groups, n - 1));
    }
  }

  lemma AppendIncreasing(before: seq<(nat, Op)>, more: seq<(nat, Op)>, bound: nat)
    requires forall a, b :: 0 <= a < b < |before| ==> before[a].0 < before[b].0
    requires forall a, b :: 0 <= a < b < |more| ==> more[a].0 < more[b].0
    requires forall a :: 0 <= a < |before| ==> before[a].0 <= bound
    requires forall a :: 0 <= a < |more| ==> bound < more[a].0
    ensures forall a, b :: 0 <= a < b < |before + more| ==> (before + more)[a].0 < (before + more)[b].0
  {
  }

  lemma {:induction false} MemHolds(groups: seq<Group>, n: nat, k: nat) returns (from: nat)
    requires k < n <= |groups|
    ensures IsPart(MemOf(groups, n), from, groups[k].Contribution())
  {
    if k == n - 1 {
      from := |MemOf(groups, n - 1)|;
    } else {
      from := MemHolds(groups, n - 1, k);
    }
  }

  /** The finished group a writer belonged to. */
  lemma GroupOf(s: State, last: nat, i: nat, ok: bool) returns (k: nat, j: nat)
    requires Inv(s, last) && i < |s.pc| && Finished(s.pc[i], ok)
    ensures k < |s.groups| && j < |s.groups[k].members| && s.groups[k].members[j] == i && s.groups[k].ok == ok
    ensures GroupOk(s.clients, s.groups[k])
  {
    QueueOrder(s);
    var h := Handled(s.groups, |s.groups|);
    assert i !in s.queue;
    k, j := HandledIsCovered(s.groups, |s.groups|, i);
    assert Recorded(s.pc, s.groups[k]);
  }

  /** The operations stand in the table from place `from` on, numbered from first on. */
  ghost predicate NumberedAt(table: seq<(nat, Op)>, from: nat, ops: seq<Op>, first: nat) {
    && from + |ops| <= |table|
    && forall x :: 0 <= x < |ops| ==> table[from + x] == (first + x, ops[x])
  }

  ghost predicate IsPart(table: seq<(nat, Op)>, at: nat, part: seq<(nat, Op)>) {
    at + |part| <= |table| && table[at..at + |part|] == part
  }

  /** A successful group's operations, cut at `starts` into its members' in order of arrival. */
  ghost predicate Parts(clients: seq<Writer>, g: Group, starts: seq<nat>) {
    && g.applied == |g.ops| && |starts| == |g.members| + 1
    && forall j :: 0 <= j < |g.members| ==> PartAt(clients, g, starts, j)
  }

  ghost predicate PartAt(clients: seq<Writer>, g: Group, starts: seq<nat>, j: nat)
    requires j < |g.members| && |starts| == |g.members| + 1
  {
    g.members[j] < |clients| && HasPart(g.ops, clients[g.members[j]], starts[j], starts[j + 1])
  }

  lemma GroupParts(clients: seq<Writer>, g: Group) returns (starts: seq<nat>)
    requires GroupOk(clients, g) && g.ok
    ensures Parts(clients, g, starts)
  {
    var ws := Requests(clients, g.members);
    starts := AllOpsInOrder(ws, |g.members|);
    forall j | 0 <= j < |g.members| ensures PartAt(clients, g, starts, j) {
      assert g.members[j] in g.members;
      assert ws[j] == clients[g.members[j]] && HasPart(g.ops, ws[j], starts[j], starts[j + 1]);
    }
  }

  lemma {:induction false} StartsAscend(clients: seq<Writer>, g: Group, starts: seq<nat>, a: nat, b: nat)
    requires Parts(clients, g, starts) && a <= b <= |g.members|
    ensures starts[a] <= starts[b]
    decreases b
  {
    if a < b {
      StartsAscend(clients, g, starts, a, b - 1);
      assert PartAt(clients, g, starts, b - 1);
    }
  }

  lemma PartEnds(clients: seq<Writer>, g: Group, starts: seq<nat>, j: nat)
    requires Parts(clients, g, starts) && j < |g.members|
    ensures g.members[j] < |clients| && starts[j] + |clients[g.members[j]].Ops()| == starts[j + 1] <= |g.ops|
  {
    assert PartAt(clients, g, starts, j);
  }

  lemma PartsAscend(clients: seq<Writer>, g: Group, starts: seq<nat>, a: nat, b: nat)
    requires Parts(clients, g, starts) && a < b < |g.members|
    ensures g.members[a] < |clients| && starts[a] + |clients[g.members[a]].Ops()| <= starts[b]
  {
    PartEnds(clients, g, starts, a);
    StartsAscend(clients, g, starts, a + 1, b);
  }

  /** The group an acknowledged request belonged to, where it is in it, and where the group is in the memtable. */
  lemma Acknowledged(s: State, last: nat, i: nat) returns (k: nat, j: nat, starts: seq<nat>, at: nat)
    requires Inv(s, last) && i < |s.pc| && Finished(s.pc[i], true)
    ensures k < |s.groups| && j < |s.groups[k].members| && s.groups[k].members[j] == i && Parts(s.clients, s.groups[k], starts)
    ensures IsPart(s.memtable, at, s.groups[k].Contribution())
  {
    k, j := GroupOf(s, last, i, true);
    starts := GroupParts(s.clients, s.groups[k]);
    at := MemHolds(s.groups, |s.groups|, k);
  }

  /** Requests leave in order of arrival, so an earlier one is in an earlier group or before the later one in the same. */
  lemma EarlierIsBefore(s: State, k: nat, a: nat, m: nat, b: nat)
    requires Fifo(s) && k < |s.groups| && m < |s.groups| && a < |s.groups[k].members| && b < |s.groups[m].members|
    requires s.groups[k].members[a] < s.groups[m].members[b]
    ensures k < m || (k == m && a < b)
  {
    GroupsAreFifo(s, k, a);
    GroupsAreFifo(s, m, b);
    if m < k {
      OneLeaderEach(s, m, k, b, a);
    }
  }

  /** Members of two groups, or of one, in this order: the first has the lower numbers. */
  lemma MembersInOrder(clients: seq<Writer>, g: Group, a: nat, h: Group, b: nat, starts: seq<nat>, others: seq<nat>)
    requires Parts(clients, g, starts) && Parts(clients, h, others) && a < |g.members| && b < |h.members|
    requires (g == h && starts == others && a < b) || g.start + |g.ops| <= h.start
    ensures g.members[a] < |clients| && g.start + starts[a] + |clients[g.members[a]].Ops()| <= h.start + others[b]
  {
    if g.start + |g.ops| <= h.start {
      PartEnds(clients, g, starts, a);
    } else {
      PartsAscend(clients, g, starts, a, b);
    }
  }

  /** Group g, put into the table at place `at`, has w's operations from `part` on. */
  ghost predicate CommittedIn(table: seq<(nat, Op)>, g: Group, w: Writer, part: nat, at: nat) {
    g.applied == |g.ops| && HasPart(g.ops, w, part, part + |w.Ops()|) && IsPart(table, at, g.Contribution())
  }

  /** So they are in the table, numbered consecutively. */
  lemma InMemory(table: seq<(nat, Op)>, at: nat, g: Group, w: Writer, part: nat) returns (from: nat, first: nat)
    requires CommittedIn(table, g, w, part, at)
    ensures NumberedAt(table, from, w.Ops(), first) && first == g.start + part + 1
  {
    assert g.ops[..g.applied] == g.ops;
    from, first := at + part, g.start + part + 1;
    forall x | 0 <= x < |w.Ops()| ensures table[from + x] == (first + x, w.Ops()[x]) {
      var y := part + x;
      assert table[at..at + |g.ops|][y] == g.Contribution()[y] == (g.start + 1 + y, g.ops[y]);
      assert g.ops[part..part + |w.Ops()|][x] == g.ops[y];
    }
  }

  lemma PartIsCommitted(
    table: seq<(nat, Op)>, clients: seq<Writer>, g: Group, starts: seq<nat>, j: nat, at: nat)
    requires Parts(clients, g, starts) && j < |g.members| && IsPart(table, at, g.Contribution())
    ensures g.members[j] < |clients| && CommittedIn(table, g, clients[g.members[j]], starts[j], at)
  {
    assert PartAt(clients, g, starts, j);
  }

  /** Two acknowledged requests: their groups, and where these and their operations are; the numbers of the first are lower. */
  lemma BothAcknowledged(s: State, last: nat, i: nat, j: nat) returns (k: nat, part: nat, at: nat, m: nat, rest: nat, place: nat)
    requires Inv(s, last) && i < j < |s.pc| && Finished(s.pc[i], true) && Finished(s.pc[j], true)
    ensures j < |s.clients| && k < |s.groups| && m < |s.groups|
    ensures CommittedIn(s.memtable, s.groups[k], s.clients[i], part, at)
    ensures CommittedIn(s.memtable, s.groups[m], s.clients[j], rest, place)
    ensures s.groups[k].start + part + |s.clients[i].Ops()| <= s.groups[m].start + rest
  {
    var a, starts, b, others;
    k, a, starts, at := Acknowledged(s, last, i);
    m, b, others, place := Acknowledged(s, last, j);
    EarlierIsBefore(s, k, a, m, b);
    if k < m {
      NumbersNeverReused(s, last, k, m);
    } else {
      others := starts;
    }
    MembersInOrder(s.clients, s.groups[k], a, s.groups[m], b, starts, others);
    PartIsCommitted(s.memtable, s.clients, s.groups[k], starts, a, at);
    PartIsCommitted(s.memtable, s.clients, s.groups[m], others, b, place);
    part, rest := starts[a], others[b];
  }

  /** Writes reported successful are numbered in order of arrival: every number of an earlier request, in the same group
      or not, is below every number of a later one. */
  lemma AcknowledgedInOrder(s: State, last: nat, i: nat, j: nat) returns (from: nat, first: nat, later: nat, next: nat)
    requires Inv(s, last) && i < j < |s.pc| && Finished(s.pc[i], true) && Finished(s.pc[j], true)
    ensures j < |s.clients| && NumberedAt(s.memtable, from, s.clients[i].Ops(), first)
    ensures NumberedAt(s.memtable, later, s.clients[j].Ops(), next)
    ensures first + |s.clients[i].Ops()| <= next
  {
    var k, part, at, m, rest, place := BothAcknowledged(s, last, i, j);
    from, first := InMemory(s.memtable, at, s.groups[k], s.clients[i], part);
    later, next := InMemory(s.memtable, place, s.groups[m], s.clients[j], rest);
  }

  /** A write reported successful is in the memtable, whole and in its own order, under consecutive numbers. */
  lemma AcknowledgedIsApplied(s: State, last: nat, i: nat) returns (from: nat, first: nat)
    requires Inv(s, last) && i < |s.pc| && Finished(s.pc[i], true)
    ensures i < |s.clients| && NumberedAt(s.memtable, from, s.clients[i].Ops(), first)
  {
    var k, j, starts, at := Acknowledged(s, last, i);
    PartIsCommitted(s.memtable, s.clients, s.groups[k], starts, j, at);
    from, first := InMemory(s.memtable, at, s.groups[k], s.clients[i], starts[j]);
  }

  /** No sync write rides under a leader that does not sync, and no group outgrows the size limit. */
  lemma GroupsRespectLimits(s: State, last: nat, k: nat)
    requires Inv(s, last) && k < |s.groups|
    ensures s.groups[k].members != []
    ensures forall i :: i in s.groups[k].members ==> i < |s.clients|
    ensures forall i :: i in s.groups[k].members && s.clients[i].sync ==> s.clients[s.groups[k].members[0]].sync
    ensures var ws := Requests(s.clients, s.groups[k].members);
            var size, first := TotalBytes(ws, |ws|), ws[0].Bytes();
            size <= first || size <= if first <= 131072 then first + 131072 else 1048576
  {
    var g := s.groups[k];
    assert GroupOk(s.clients, g);
    var ws := Requests(s.clients, g.members);
    forall i | i in g.members && s.clients[i].sync ensures s.clients[g.members[0]].sync {
      var j :| 0 <= j < |g.members| && g.members[j] == i;
      assert ws[j].sync;
    }
  }

  lemma LongestGroupExists(ws: seq<Writer>, n: nat) returns (m: nat)
    requires Fits(ws, n)
    ensures Fits(ws, m) && (m == |ws| || !Fits(ws, m + 1))
    decreases |ws| - n
  {
    if n == |ws| || !Fits(ws, n + 1) {
      m := n;
    } else {
      m := LongestGroupExists(ws, n + 1);
    }
  }

  ghost predicate Moves(step: Step, i: nat) {
    step == Taking(i) || (step.Leaving? && step.i == i) || (step.Starting? && step.i == i) || (step.Ending? && step.i == i)
  }

  /** Once room is made the leader can go on, with the longest group allowed or, without a batch, alone. */
  lemma RoomIsUsed(s: State, last: nat, i: nat)
    requires Inv(s, last) && s.queue != [] && s.queue[0] == i && s.pc[i] == MakingRoom
    ensures exists step, t :: Moves(step, i) && Next(s, t, step) && step != Leaving(i, false)
  {
    QueueOrder(s);
    if s.clients[i].batch.None? {
      var step := Leaving(i, true);
      assert Next(s, Finish(s, 1, Group([i], true, s.lastSequence, [], 0)), step) && Moves(step, i);
    } else {
      var ws := Requests(s.clients, s.queue);
      assert TotalBytes(ws, 1) == TotalBytes(ws, 0) + ws[0].Bytes();
      var n := LongestGroupExists(ws, 1);
      var step := Starting(i, n);
      assert Next(s, s.(pc := s.pc[i := Writing(n, s.lastSequence, AllOps(ws, n))]), step) && Moves(step, i);
    }
  }

  lemma WritingEnds(s: State, last: nat, i: nat)
    requires Inv(s, last) && s.queue != [] && s.queue[0] == i && s.pc[i].Writing?
    ensures exists step, t :: Moves(step, i) && Next(s, t, step)
  {
    QueueOrder(s);
    var p := s.pc[i];
    var t := Finish(s, p.n, Group(s.queue[..p.n], true, p.start, p.ops, |p.ops|))
             .(lastSequence := p.start + |p.ops|, memtable := s.memtable + Numbered(p.start, p.ops[..|p.ops|]));
    assert Next(s, t, Ending(i, true, |p.ops|));
    assert Moves(Ending(i, true, |p.ops|), i);
  }

  /** A leader takes as many along as it may: the next in line syncs though the leader does not, or has a batch that is
      too large for the group. */
  lemma GroupsAreLongest(s: State, t: State, last: nat, i: nat, n: nat)
    requires Inv(s, last) && Next(s, t, Starting(i, n)) && n < |s.queue|
    ensures forall j :: j in s.queue ==> j < |s.clients|
    ensures var leader, w, ws := s.clients[i], s.clients[s.queue[n]], Requests(s.clients, s.queue);
            || (w.sync && !leader.sync)
            || (w.batch.Some? && leader.batch.Some?
                && var first, size := leader.batch.value.bytes, TotalBytes(ws, n) + w.batch.value.bytes;
                   size > if first <= 131072 then first + 131072 else 1048576)
  {
    QueueOrder(s);
    var ws := Requests(s.clients, s.queue);
    assert ws[0] == s.clients[i] && ws[n] == s.clients[s.queue[n]];
    FitsOneMore(ws, n);
  }

  /** What the environment may do: any request may arrive, room may not be made, and a write may end well, or fail after
      any part of it has been applied. */
  lemma AnyRequestMayArrive(s: State, w: Writer) returns (t: State)
    requires w.WellFormed()
    ensures Next(s, t, Arriving(w)) && t.clients == s.clients + [w] && t.queue == s.queue + [|s.clients|]
  {
    t := s.(clients := s.clients + [w], queue := s.queue + [|s.clients|], pc := s.pc + [Waiting],
            awake := if s.queue == [] then s.awake + {|s.clients|} else s.awake);
  }

  lemma RoomMayBeRefused(s: State, last: nat, i: nat) returns (t: State)
    requires Inv(s, last) && s.queue != [] && s.queue[0] == i && s.pc[i] == MakingRoom
    ensures Next(s, t, Leaving(i, false)) && t.pc[i] == Returned(false) && t.memtable == s.memtable
  {
    QueueOrder(s);
    t := Finish(s, 1, Group([i], false, s.lastSequence, [], 0));
  }

  lemma AnyEndMayCome(s: State, last: nat, i: nat, ok: bool, applied: nat) returns (t: State)
    requires Inv(s, last) && s.queue != [] && s.queue[0] == i && s.pc[i].Writing?
    requires applied <= |s.pc[i].ops| && (ok ==> applied == |s.pc[i].ops|)
    ensures Next(s, t, Ending(i, ok, applied)) && t.pc[i] == Returned(ok)
    ensures |t.memtable| == |s.memtable| + applied && t.lastSequence == s.lastSequence + |s.pc[i].ops|
  {
    QueueOrder(s);
    var p := s.pc[i];
    t := Finish(s, p.n, Group(s.queue[..p.n], ok, p.start, p.ops, applied))
         .(lastSequence := p.start + |p.ops|, memtable := s.memtable + Numbered(p.start, p.ops[..applied]));
  }

  /** No lost wake-up: a nonempty queue always has a front writer that can take its next step,
      and every writer whose group is over can return. */
  lemma NeverStuck(s: State, last: nat)
    requires Inv(s, last)
    ensures s.queue != [] ==> exists step, t :: Moves(step, s.queue[0]) && Next(s, t, step)
    ensures forall i :: 0 <= i < |s.pc| && s.pc[i].Done? ==> exists t :: Next(s, t, Returning(i))
  {
    forall i | 0 <= i < |s.pc| && s.pc[i].Done? ensures exists t :: Next(s, t, Returning(i)) {
      assert Next(s, s.(pc := s.pc[i := Returned(s.pc[i].ok)]), Returning(i));
    }
    if s.queue != [] {
      QueueOrder(s);
      var i := s.queue[0];
      if s.pc[i] == Waiting {
        assert Next(s, s.(pc := s.pc[i := MakingRoom]), Taking(i));
        assert Moves(Taking(i), i);
      } else if s.pc[i] == MakingRoom {
        RoomIsUsed(s, last, i);
      } else {
        WritingEnds(s, last, i);
      }
    }
  }

  // ---- Progress ----

  /** How many stages a writer still has before it. */
  function Stages(p: PC): nat {
    match p
    case Waiting => 4
    case MakingRoom => 3
    case Writing(_, _, _) => 2
    case Done(_) => 1
    case Returned(_) => 0
  }

  function Work(pc: seq<PC>, n: nat): nat
    requires n <= |pc|
  {
    if n == 0 then 0 else Work(pc, n - 1) + Stages(pc[n - 1])
  }

  /** The step takes some writer on; the others are arrivals and idle wake-ups. */
  predicate Advances(step: Step) {
    !step.Arriving? && !step.Waking? && !step.Sleeping?
  }

  lemma {:induction false} LessWork(before: seq<PC>, after: seq<PC>, n: nat, i: nat)
    requires n <= |before| == |after| && forall j :: 0 <= j < |before| ==> Stages(after[j]) <= Stages(before[j])
    requires i < |before| && Stages(after[i]) < Stages(before[i])
    ensures Work(after, n) <= Work(before, n) && (i < n ==> Work(after, n) < Work(before, n))
  {
    if n > 0 {
      LessWork(before, after, n - 1, i);
    }
  }

  lemma {:induction false} WorkOfPrefix(pc: seq<PC>, more: seq<PC>, n: nat)
    requires n <= |pc| && pc <= more
    ensures Work(more, n) == Work(pc, n)
  {
    if n > 0 {
      WorkOfPrefix(pc, more, n - 1);
    }
  }

  /** A group leaves the queue: its leader returns and its followers are done. */
  lemma FinishAdvances(s: State, n: nat, g: Group)
    requires Control(s) && 1 <= n <= |s.queue| && forall i :: i in s.queue ==> i < |s.pc|
    ensures var t := Finish(s, n, g);
            && |t.pc| == |s.pc| && (forall j :: 0 <= j < |s.pc| ==> Stages(t.pc[j]) <= Stages(s.pc[j]))
            && Stages(t.pc[s.queue[0]]) < Stages(s.pc[s.queue[0]])
  {
    var t := Finish(s, n, g);
    forall j | 0 <= j < |s.pc| ensures Stages(t.pc[j]) <= Stages(s.pc[j]) {
      if j in s.queue[1..n] {
        var q :| 0 <= q < |s.queue[1..n]| && s.queue[1..n][q] == j;
        assert s.queue[1 + q] == j;
      }
    }
  }

  /** Some writer is a stage further; nobody goes back. */
  lemma StepAdvances(s: State, t: State, step: Step, last: nat)
    requires Inv(s, last) && Next(s, t, step) && Advances(step)
    ensures |t.pc| == |s.pc| && (forall j :: 0 <= j < |s.pc| ==> Stages(t.pc[j]) <= Stages(s.pc[j]))
    ensures step.i < |s.pc| && Stages(t.pc[step.i]) < Stages(s.pc[step.i])
  {
    if step.Leaving? {
      FinishAdvances(s, 1, Group([step.i], step.ok, s.lastSequence, [], 0));
    } else if step.Ending? {
      var p := s.pc[step.i];
      FinishAdvances(s, p.n, Group(s.queue[..p.n], step.ok, p.start, p.ops, step.applied));
    }
  }

  /** Each step but an arrival and an idle wake-up leaves less work; an arrival brings four stages. */
  lemma WorkLessens(s: State, t: State, step: Step, last: nat)
    requires Inv(s, last) && Next(s, t, step)
    ensures if Advances(step) then Work(t.pc, |t.pc|) < Work(s.pc, |s.pc|)
            else Work(t.pc, |t.pc|) == Work(s.pc, |s.pc|) + if step.Arriving? then 4 else 0
  {
    if Advances(step) {
      StepAdvances(s, t, step, last);
      LessWork(s.pc, t.pc, |s.pc|, step.i);
    } else if step.Arriving? {
      WorkOfPrefix(s.pc, t.pc, |s.pc|);
    }
  }

  /** How many of the first n steps take a writer on. */
  function Advanced(steps: seq<Step>, n: nat): nat
    requires n <= |steps|
  {
    if n == 0 then 0 else Advanced(steps, n - 1) + if Advances(steps[n - 1]) then 1 else 0
  }

  lemma {:induction false} AdvancedIs(steps: seq<Step>, n: nat)
    requires n <= |steps|
    ensures Advanced(steps, n) == |set k | 0 <= k < n && Advances(steps[k])|
  {
    if n > 0 {
      var m := n - 1;
      AdvancedIs(steps, m);
      var before, all := set k | 0 <= k < m && Advances(steps[k]), set k | 0 <= k < n && Advances(steps[k]);
      assert all == before + if Advances(steps[m]) then {m} else {};
    }
  }

  /** Steps taken and work left are no more than four for each request. */
  lemma {:induction false} FourStepsEach(trace: seq<State>, steps: seq<Step>, last: nat, n: nat)
    requires Behavior(trace, steps, last) && n <= |steps|
    ensures Advanced(steps, n) + Work(trace[n].pc, |trace[n].pc|) <= 4 * |trace[n].clients|
  {
    if n > 0 {
      FourStepsEach(trace, steps, last, n - 1);
      RunKeepsInv(trace, steps, last, n - 1);
      assert StepAt(trace, steps, n - 1);
      WorkLessens(trace[n - 1], trace[n], steps[n - 1], last);
      ArrivalsOnly(trace[n - 1], trace[n], steps[n - 1]);
    }
  }

  /** No run takes more than four steps for each request, idle wake-ups aside. */
  lemma AtMostFourStepsEach(trace: seq<State>, steps: seq<Step>, last: nat, n: nat)
    requires Behavior(trace, steps, last) && n <= |steps|
    ensures |set k | 0 <= k < n && !steps[k].Arriving? && !steps[k].Waking? && !steps[k].Sleeping?| <= 4 * |trace[n].clients|
  {
    FourStepsEach(trace, steps, last, n);
    AdvancedIs(steps, n);
    assert (set k | 0 <= k < n && !steps[k].Arriving? && !steps[k].Waking? && !steps[k].Sleeping?)
        == set k | 0 <= k < n && Advances(steps[k]);
  }

  lemma ArrivalsOnly(s: State, t: State, step: Step)
    requires Next(s, t, step)
    ensures |t.clients| == |s.clients| + if step.Arriving? then 1 else 0
  {
  }

  /** And as long as some request has not returned such a step is possible. So in every run that goes on taking them,
      every request returns, if no more than finitely many arrive; a NULL batch absorbed into a group too. */
  lemma SomebodyCanMove(s: State, last: nat, i: nat)
    requires Inv(s, last) && i < |s.pc| && !s.pc[i].Returned?
    ensures exists step, t :: Advances(step) && Next(s, t, step)
  {
    NeverStuck(s, last);
    QueueOrder(s);
    if s.queue != [] {
      var step, t :| Moves(step, s.queue[0]) && Next(s, t, step);
      assert Advances(step);
    } else {
      var k, j := HandledIsCovered(s.groups, |s.groups|, i);
      assert Recorded(s.pc, s.groups[k]);
      assert s.pc[i].Done?;
      var t :| Next(s, t, Returning(i));
      assert Advances(Returning(i));
    }
  }
}
