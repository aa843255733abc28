/** A snapshot held by a reader keeps its view while the database goes on writing, flushing and compacting. */
module HeldSnapshots {
  import opened Run
  import opened Options
  import opened CrashRecovery
  import opened CrashReads
  import Compaction

  /** What a reader of the open database looks through: the memtables and the tables of the current version. */
  ghost function Visible(s: State): set<Entry>
    requires s.phase.Open?
  {
    Tables(s) + Memory(s.phase.db)
  }

  ghost function Memory(db: DB): set<Entry> {
    db.mem + Imm(db)
  }

  ghost predicate Good(s: State, mode: Mode) {
    s.phase.Open? && Inv(s, mode) && Fresh(s) && SnapshotsOk(s) && ReadsOk(s)
  }

  /** No two visible entries share key and number; the memtables, while not yet in tables, are newer than the tables. */
  lemma VisibleIsUnique(s: State, mode: Mode)
    requires Good(s, mode)
    ensures Unique(Visible(s))
    ensures s.phase.db.flush != Installed ==> Newer(Memory(s.phase.db), Tables(s))
  {
    var db, min := s.phase.db, s.disk.manifest.logNumber;
    var log := LogEntries(s.disk.logs[db.logfile], ProcessCrash);
    assert log <= Logs(s);
    assert Visible(s) <= Tables(s) + s.retired + Logs(s);
  }

  /** What a reader at snapshot q finds under key k. */
  ghost function Sees(s: State, mode: Mode, k: Key, q: nat): Option<Value>
    requires Good(s, mode)
  {
    VisibleIsUnique(s, mode);
    Lookup(Visible(s), k, q)
  }

  /** Entries a snapshot cannot see do not change its view. */
  lemma LaterWrites(s: State, t: State, X: set<Entry>, mode: Mode, k: Key, q: nat)
    requires Good(s, mode) && Good(t, mode) && Visible(t) == Visible(s) + X && forall x :: x in X ==> x.seqno > q
    ensures Sees(t, mode, k, q) == Sees(s, mode, k, q)
  {
    VisibleIsUnique(s, mode);
    VisibleIsUnique(t, mode);
    HiddenPart(Visible(s), X, k, q);
  }

  /** What a step puts into the memtable. */
  ghost function Inserted(db: DB, step: Step): set<Entry> {
    if step.Inserting? && db.write.Logged? then db.write.rec else if step.GivingUp? then step.part else {}
  }

  lemma VisibleAfterWrite(s: State, t: State, step: Step, mode: Mode)
    requires s.phase.Open? && Next(s, t, step, mode) && step.Writes()
    ensures t.phase.Open? && Visible(t) == Visible(s) + Inserted(s.phase.db, step)
  {
    assert Tables(t) == Tables(s);
    assert Memory(t.phase.db) == Memory(s.phase.db) + Inserted(s.phase.db, step);
  }

  lemma WriteStep(s: State, t: State, step: Step, mode: Mode, k: Key, q: nat)
    requires Good(s, mode) && Good(t, mode) && Next(s, t, step, mode) && step.Writes() && q <= s.phase.db.lastSequence
    ensures Sees(t, mode, k, q) == Sees(s, mode, k, q)
  {
    VisibleAfterWrite(s, t, step, mode);
    LaterWrites(s, t, Inserted(s.phase.db, step), mode, k, q);
  }

  lemma VisibleAfterInstall(s: State, t: State, mode: Mode)
    requires s.phase.Open? && Inv(s, mode) && InstallEdit(s, t)
    ensures Visible(t) == Visible(s)
  {
    InstalledTables(s, t, mode);
  }

  lemma VisibleInBackground(s: State, t: State, step: Step, mode: Mode)
    requires s.phase.Open? && Inv(s, mode) && Next(s, t, step, mode) && step.InBackground()
    ensures t.phase.Open? && Visible(t) == Visible(s)
  {
    TablesAgree(s.disk.tables, t.disk.tables, s.disk.manifest.tables);
  }

  lemma VisibleAfterFlush(s: State, t: State, step: Step, mode: Mode)
    requires s.phase.Open? && Inv(s, mode) && Next(s, t, step, mode) && (step.InBackground() || step.Manages() || step.Installing?)
    ensures t.phase.Open? && Visible(t) == Visible(s)
  {
    if step.Installing? {
      VisibleAfterInstall(s, t, mode);
    } else if step.InBackground() {
      VisibleInBackground(s, t, step, mode);
    }
  }

  lemma FlushStep(s: State, t: State, step: Step, mode: Mode, k: Key, q: nat)
    requires Good(s, mode) && Good(t, mode) && Next(s, t, step, mode) && (step.InBackground() || step.Manages() || step.Installing?)
    ensures Sees(t, mode, k, q) == Sees(s, mode, k, q)
  {
    VisibleAfterFlush(s, t, step, mode);
    LaterWrites(s, t, {}, mode, k, q);
  }

  lemma CompactionStep(s: State, t: State, ins: set<nat>, outs: set<nat>, mode: Mode, k: Key, q: nat)
    requires Good(s, mode) && Good(t, mode) && InstallCompaction(s, t, ins, outs) && q in s.phase.db.snapshots
    ensures Sees(t, mode, k, q) == Sees(s, mode, k, q)
  {
    var m := s.disk.manifest;
    var inputs, others := TableEntries(s.disk.tables, ins), TableEntries(s.disk.tables, m.tables - ins);
    var outputs := TableEntries(s.disk.tables, outs);
    SplitTables(s.disk.tables, m.tables, ins);
    JoinTables(s.disk.tables, m.tables - ins, outs);
    VisibleIsUnique(s, mode);
    VisibleIsUnique(t, mode);
    MergedView(inputs, others, outputs, s.phase.db.compacting.value);
    AddNewer(inputs + others, outputs + others, Memory(s.phase.db), s.phase.db.compacting.value);
  }

  /** Every snapshot from the oldest on has the same view of the tables before and after. */
  lemma MergedView(inputs: set<Entry>, others: set<Entry>, outputs: set<Entry>, oldest: nat)
    requires Merged(inputs, others, outputs, oldest)
    ensures outputs <= inputs && Unique(inputs + others) && Unique(outputs + others)
    ensures SameView(inputs + others, outputs + others, oldest)
  {
    var input, p :| Sorted(input) && Entries(input) == inputs && Compaction.Consistent(input, p, others)
                    && p.smallestSnapshot == oldest && outputs == Entries(Compaction.Survivors(input, p, |input|));
    Compaction.SurvivorsAre(input, p, |input|);
    forall k, t: nat | t >= oldest ensures Lookup(inputs + others, k, t) == Lookup(outputs + others, k, t) {
      Compaction.CompactionPreservesLookup(input, p, others, k, t);
    }
  }

  /** No step of an open database changes what a snapshot sees that is held before it. */
  lemma StepKeepsView(s: State, t: State, step: Step, mode: Mode, k: Key, q: nat)
    requires Good(s, mode) && Next(s, t, step, mode) && t.phase.Open? && q in s.phase.db.snapshots
    ensures Good(t, mode) && Sees(t, mode, k, q) == Sees(s, mode, k, q)
  {
    NextKeepsInv(s, t, step, mode);
    NextKeepsFresh(s, t, step, mode);
    NextKeepsSnapshots(s, t, step, mode);
    NextKeepsReads(s, t, step, mode);
    if step.Writes() {
      WriteStep(s, t, step, mode, k, q);
    } else if step.Compacting? {
      CompactionStep(s, t, step.ins, step.outs, mode, k, q);
    } else {
      FlushStep(s, t, step, mode, k, q);
    }
  }

  predicate Holds(s: State, q: nat) {
    s.phase.Open? && q in s.phase.db.snapshots
  }

  lemma GoodAt(trace: seq<State>, steps: seq<Step>, mode: Mode, i: nat)
    requires Behavior(trace, steps, mode) && i < |trace| && trace[i].phase.Open?
    ensures Good(trace[i], mode)
  {
    RunKeepsInv(trace, steps, mode, i);
    RunKeepsReads(trace, steps, mode, i);
  }

  /** What a reader at snapshot q finds under key k, while he holds it. */
  ghost function Seen(s: State, mode: Mode, k: Key, q: nat): Option<Option<Value>> {
    if Good(s, mode) && Holds(s, q) then Some(Sees(s, mode, k, q)) else None
  }

  lemma StepKeepsSeen(s: State, t: State, step: Step, mode: Mode, k: Key, q: nat)
    requires Seen(s, mode, k, q).Some? && Next(s, t, step, mode) && Holds(t, q)
    ensures Seen(t, mode, k, q) == Seen(s, mode, k, q)
  {
    StepKeepsView(s, t, step, mode, k, q);
  }

  /** The same for state n of a run. */
  ghost function SeenAt(trace: seq<State>, mode: Mode, k: Key, q: nat, n: nat): Option<Option<Value>>
    requires n < |trace|
  {
    Seen(trace[n], mode, k, q)
  }

  /** The snapshot is held from state i on to state j. */
  predicate Held(trace: seq<State>, i: nat, j: nat, q: nat)
    requires i <= j < |trace|
  {
    forall n :: i <= n <= j ==> Holds(trace[n], q)
  }

  lemma StepInRun(trace: seq<State>, steps: seq<Step>, mode: Mode, m: nat, n: nat, k: Key, q: nat)
    requires Behavior(trace, steps, mode) && m < n == m + 1 < |trace| && Held(trace, m, n, q)
    requires SeenAt(trace, mode, k, q, m).Some?
    ensures SeenAt(trace, mode, k, q, n) == SeenAt(trace, mode, k, q, m)
  {
    assert StepAt(trace, steps, mode, m);
    StepKeepsSeen(trace[m], trace[n], steps[m], mode, k, q);
  }

  lemma SeenIfHeld(trace: seq<State>, steps: seq<Step>, mode: Mode, i: nat, k: Key, q: nat)
    requires Behavior(trace, steps, mode) && i < |trace| && Held(trace, i, i, q)
    ensures SeenAt(trace, mode, k, q, i).Some?
  {
    GoodAt(trace, steps, mode, i);
  }

  lemma HeldInPart(trace: seq<State>, i: nat, j: nat, q: nat, m: nat, n: nat)
    requires i <= m <= n <= j < |trace| && Held(trace, i, j, q)
    ensures Held(trace, m, n, q)
  {
  }

  /** A snapshot sees the same in all states of a run through which it is held, whatever is written, flushed, compacted
      and deleted in between. */
  lemma {:induction false} SnapshotKeepsView(trace: seq<State>, steps: seq<Step>, mode: Mode, i: nat, j: nat, k: Key, q: nat)
    requires Behavior(trace, steps, mode) && i <= j < |trace| && Held(trace, i, j, q)
    ensures SeenAt(trace, mode, k, q, i).Some? && SeenAt(trace, mode, k, q, j) == SeenAt(trace, mode, k, q, i)
    decreases j
  {
    if i == j {
      SeenIfHeld(trace, steps, mode, i, k, q);
    } else {
      var m := j - 1;
      HeldInPart(trace, i, j, q, i, m);
      HeldInPart(trace, i, j, q, m, j);
      SnapshotKeepsView(trace, steps, mode, i, m, k, q);
      StepInRun(trace, steps, mode, m, j, k, q);
    }
  }
}
