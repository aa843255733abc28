/** What a reader sees after any crashes: the entries that compactions left out change nothing. */
module CrashReads {
  import opened Run
  import opened Options
  import opened CrashRecovery
  import Compaction

  /** Everything in A is newer than everything in B. */
  ghost predicate Newer(A: set<Entry>, B: set<Entry>) {
    forall a, b :: a in A && b in B ==> b.seqno < a.seqno
  }

  /** Readers from a snapshot on see the same in both. */
  ghost predicate SameView(A: set<Entry>, B: set<Entry>, from: nat)
    requires Unique(A) && Unique(B)
  {
    forall k, t: nat :: t >= from ==> Lookup(A, k, t) == Lookup(B, k, t)
  }

  /** Tables, retired entries and logs: the logs are newer than the rest, and readers miss none of the retired. */
  ghost predicate Settled(tables: set<Entry>, retired: set<Entry>, logs: set<Entry>, from: nat) {
    && Unique(tables + retired + logs) && Newer(logs, tables + retired) && UpTo(tables + retired, from)
    && UniqueParts(tables, retired, logs)
    && SameView(tables + retired, tables, from)
  }

  ghost predicate UniqueParts(tables: set<Entry>, retired: set<Entry>, logs: set<Entry>) {
    Unique(tables + retired) && Unique(tables)
  }

  // ---- Sets of entries ----

  lemma VisibleOrNot(A: set<Entry>, k: Key, t: nat)
    requires Unique(A)
    ensures (exists e :: IsNewest(A, k, t, e)) || forall e :: e in A && e.key == k ==> e.seqno > t
  {
    if e :| e in A && e.key == k && e.seqno <= t {
      var n := NewestExists(A, k, t, e);
    }
  }

  /** Adding newer entries to two sets that look the same keeps them looking the same. */
  lemma AddNewer(A: set<Entry>, B: set<Entry>, X: set<Entry>, from: nat)
    requires B <= A && Unique(A + X) && Unique(A) && Unique(B) && Newer(X, A) && SameView(A, B, from)
    ensures Unique(B + X) && SameView(A + X, B + X, from)
  {
    forall k, t: nat | t >= from ensures Lookup(A + X, k, t) == Lookup(B + X, k, t) {
      AddNewerAt(A, B, X, from, k, t);
    }
  }

  lemma AddNewerAt(A: set<Entry>, B: set<Entry>, X: set<Entry>, from: nat, k: Key, t: nat)
    requires B <= A && Unique(A + X) && Unique(A) && Unique(B) && Unique(B + X) && Newer(X, A) && SameView(A, B, from) && t >= from
    ensures Lookup(A + X, k, t) == Lookup(B + X, k, t)
  {
    if x :| x in X && x.key == k && x.seqno <= t {
      var n := NewestExists(X, k, t, x);
      assert IsNewest(A + X, k, t, n) && IsNewest(B + X, k, t, n);
      LookupNewest(A + X, k, t, n);
      LookupNewest(B + X, k, t, n);
    } else {
      HiddenPart(A, X, k, t);
      HiddenPart(B, X, k, t);
      assert Lookup(A, k, t) == Lookup(B, k, t);
    }
  }

  /** Entries that are not visible do not matter. */
  lemma HiddenPart(A: set<Entry>, X: set<Entry>, k: Key, t: nat)
    requires Unique(A + X) && Unique(A) && forall x :: x in X && x.key == k ==> x.seqno > t
    ensures Lookup(A + X, k, t) == Lookup(A, k, t)
  {
    VisibleOrNot(A, k, t);
    if e :| IsNewest(A, k, t, e) {
      assert IsNewest(A + X, k, t, e);
      LookupNewest(A, k, t, e);
      LookupNewest(A + X, k, t, e);
    } else {
      LookupNothing(A, k, t);
      LookupNothing(A + X, k, t);
    }
  }

  lemma LogsShrink(T: set<Entry>, R: set<Entry>, L: set<Entry>, less: set<Entry>, from: nat)
    requires Settled(T, R, L, from) && less <= L
    ensures Settled(T, R, less, from)
  {
  }

  lemma LogsGain(T: set<Entry>, R: set<Entry>, L: set<Entry>, rec: set<Entry>, from: nat)
    requires Settled(T, R, L, from) && Unique(rec) && Newer(rec, T + R + L)
    ensures Settled(T, R, L + rec, from)
  {
    assert T + R + (L + rec) == (T + R + L) + rec;
  }

  /** Entries of the logs go into tables. */
  lemma TablesGain(T: set<Entry>, R: set<Entry>, L: set<Entry>, from: nat, X: set<Entry>, less: set<Entry>, later: nat)
    requires Settled(T, R, L, from) && X <= L && less <= L && Newer(less, X) && UpTo(X, later) && from <= later
    ensures Settled(T + X, R, less, later)
  {
    assert T + X + R == (T + R) + X;
    AddNewer(T + R, T, X, from);
  }

  /** A compaction takes entries out of the tables. */
  lemma TablesCompacted(
    inputs: set<Entry>, others: set<Entry>, outputs: set<Entry>, R: set<Entry>, L: set<Entry>, from: nat, oldest: nat, later: nat)
    requires Settled(inputs + others, R, L, from) && from <= later && oldest <= later && Merged(inputs, others, outputs, oldest)
    ensures outputs <= inputs
    ensures Settled(outputs + others, R + (inputs + others - (outputs + others)), L, later)
  {
    var input, p :| Sorted(input) && Entries(input) == inputs && Compaction.Consistent(input, p, others)
                    && p.smallestSnapshot == oldest && outputs == Entries(Compaction.Survivors(input, p, |input|));
    Compaction.SurvivorsAre(input, p, |input|);
    var T, U := inputs + others, outputs + others;
    TakenOut(T, U, R);
    forall k, t: nat | t >= later ensures Lookup(T + R, k, t) == Lookup(U, k, t) {
      CompactedAt(input, p, others, R, from, k, t);
    }
  }

  lemma TakenOut(T: set<Entry>, U: set<Entry>, R: set<Entry>)
    requires U <= T
    ensures U + (R + (T - U)) == T + R
  {
  }

  lemma CompactedAt(input: seq<Entry>, p: Compaction.Policy, others: set<Entry>, R: set<Entry>, from: nat, k: Key, t: nat)
    requires Sorted(input) && Compaction.Consistent(input, p, others) && p.smallestSnapshot <= t && from <= t
    requires Unique(Entries(input) + others + R) && SameView(Entries(input) + others + R, Entries(input) + others, from)
    ensures Unique(Entries(Compaction.Survivors(input, p, |input|)) + others)
    ensures Lookup(Entries(input) + others + R, k, t) == Lookup(Entries(Compaction.Survivors(input, p, |input|)) + others, k, t)
  {
    Compaction.CompactionPreservesLookup(input, p, others, k, t);
  }

  // ---- The invariant ----

  ghost function Tables(s: State): set<Entry> {
    TableEntries(s.disk.tables, s.disk.manifest.tables)
  }

  ghost function Logs(s: State): set<Entry> {
    LogsFrom(s.disk.logs, s.disk.manifest.logNumber, ProcessCrash)
  }

  ghost predicate PhaseOk(s: State) {
    match s.phase
    case Open(db) =>
      && db.logfile in s.disk.logs && (forall n :: n in s.disk.logs ==> n <= db.logfile)
      && Newer(LogEntries(s.disk.logs[db.logfile], ProcessCrash), Imm(db))
    case Recovering(_, todo, edit, _, _, _, _, _) =>
      && edit <= s.disk.tables.Keys && TableEntries(s.disk.tables, edit) <= Logs(s)
      && forall n :: n in todo ==> n >= s.disk.manifest.logNumber
    case Closed => true
  }

  ghost predicate ReadsOk(s: State) {
    Settled(Tables(s), s.retired, Logs(s), s.disk.manifest.lastSequence) && PhaseOk(s)
  }

  // ---- Every step keeps it ----

  lemma InitReads(s: State)
    requires Init(s)
    ensures ReadsOk(s)
  {
    assert Tables(s) == {} && Logs(s) == {};
  }

  lemma AppendKeepsReads(s: State, t: State, rec: set<Entry>, sync: bool, last: nat, mode: Mode)
    requires Inv(s, mode) && Fresh(s) && ReadsOk(s) && Append(s, t, rec, sync, last)
    ensures ReadsOk(t)
  {
    var db := s.phase.db;
    AppendedEntries(s.disk.logs, db.logfile, rec, s.disk.manifest.logNumber);
    LogsGain(Tables(s), s.retired, Logs(s), rec, s.disk.manifest.lastSequence);
    LogsShrink(Tables(s), s.retired, Logs(s) + rec, Logs(t), s.disk.manifest.lastSequence);
    var before, after := s.disk.logs[db.logfile], t.disk.logs[db.logfile];
    forall e | e in LogEntries(after, ProcessCrash) ensures e in LogEntries(before, ProcessCrash) || e in rec {
    }
  }

  /** Steps that change no table of the manifest, retire nothing, and add nothing to the logs. */
  lemma QuietStep(s: State, t: State)
    requires ReadsOk(s) && t.disk.manifest == s.disk.manifest && t.retired == s.retired
    requires Tables(t) == Tables(s) && Logs(t) <= Logs(s)
    ensures Settled(Tables(t), t.retired, Logs(t), t.disk.manifest.lastSequence)
  {
    LogsShrink(Tables(s), s.retired, Logs(s), Logs(t), s.disk.manifest.lastSequence);
  }

  lemma WriteStepKeepsReads(s: State, t: State, step: Step, mode: Mode)
    requires Inv(s, mode) && ReadsOk(s) && Next(s, t, step, mode)
    requires step.Syncing? || step.Switching?
    ensures ReadsOk(t)
  {
    var min := s.disk.manifest.logNumber;
    forall e | e in Logs(t) ensures e in Logs(s) {
      var m :| m in t.disk.logs && m >= min && e in LogEntries(t.disk.logs[m], ProcessCrash);
      assert m in s.disk.logs && e in LogEntries(s.disk.logs[m], ProcessCrash);
    }
    QuietStep(s, t);
    if step.Syncing? {
      var n := s.phase.db.logfile;
      assert LogEntries(t.disk.logs[n], ProcessCrash) == LogEntries(s.disk.logs[n], ProcessCrash);
    } else if step.Switching? {
      assert LogEntries(t.disk.logs[t.phase.db.logfile], ProcessCrash) == {};
    }
  }

  /** The step leaves disk and log number alone, and puts nothing into the immutable memtable. */
  ghost predicate OnlyInMemory(s: State, t: State) {
    && s.phase.Open? && t.phase.Open? && t.disk == s.disk && t.retired == s.retired
    && t.phase.db.logfile == s.phase.db.logfile && Imm(t.phase.db) <= Imm(s.phase.db)
  }

  lemma InMemoryKeepsReads(s: State, t: State)
    requires ReadsOk(s) && OnlyInMemory(s, t)
    ensures ReadsOk(t)
  {
    QuietStep(s, t);
  }

  lemma MemoryStepKeepsReads(s: State, t: State, step: Step, mode: Mode)
    requires ReadsOk(s) && Next(s, t, step, mode)
    requires step.FailingAppend? || step.Inserting? || step.GivingUp? || step.Preparing? || step.Abandoning? || step.Dropping?
          || step.Manages()
    ensures ReadsOk(t)
  {
    StaysInMemory(s, t, step, mode);
    InMemoryKeepsReads(s, t);
  }

  lemma StaysInMemory(s: State, t: State, step: Step, mode: Mode)
    requires Next(s, t, step, mode)
    requires step.FailingAppend? || step.Inserting? || step.GivingUp? || step.Preparing? || step.Abandoning? || step.Dropping?
          || step.Manages()
    ensures OnlyInMemory(s, t)
  {
  }

  lemma BackgroundStepKeepsReads(s: State, t: State, step: Step, mode: Mode)
    requires Inv(s, mode) && ReadsOk(s) && Next(s, t, step, mode)
    requires step.Building? || step.Writing? || step.DeletingLog? || step.DeletingTable?
    ensures ReadsOk(t)
  {
    TablesAgree(s.disk.tables, t.disk.tables, s.disk.manifest.tables);
    LogsAgree(t.disk.logs, s.disk.logs, s.disk.manifest.logNumber, ProcessCrash);
    QuietStep(s, t);
  }

  /** A flush adds the immutable memtable to the tables, if it holds anything. */
  lemma InstalledTables(s: State, t: State, mode: Mode)
    requires Inv(s, mode) && InstallEdit(s, t)
    ensures Tables(t) == Tables(s) + Imm(s.phase.db)
  {
    var db := s.phase.db;
    forall e ensures e in Tables(t) <==> e in Tables(s) + Imm(db) {
      if e in Tables(t) {
        var n :| n in t.disk.manifest.tables && n in t.disk.tables && e in t.disk.tables[n];
      }
      if e in Imm(db) {
        assert e in s.disk.tables[db.flush.table.value];
      }
    }
  }

  lemma FlushKeepsReads(s: State, t: State, mode: Mode)
    requires Inv(s, mode) && Fresh(s) && ReadsOk(s) && InstallEdit(s, t)
    ensures ReadsOk(t)
  {
    var db, m := s.phase.db, s.disk.manifest;
    var current := LogEntries(s.disk.logs[db.logfile], ProcessCrash);
    forall e | e in Logs(t) ensures e in Logs(s) && e in current {
      var n :| n in t.disk.logs && n >= t.disk.manifest.logNumber && e in LogEntries(t.disk.logs[n], ProcessCrash);
      assert n == db.logfile;
    }
    InstalledTables(s, t, mode);
    TablesGain(Tables(s), s.retired, Logs(s), m.lastSequence, Imm(db), Logs(t), db.lastSequence);
  }

  lemma CompactionKeepsReads(s: State, t: State, ins: set<nat>, outs: set<nat>, mode: Mode)
    requires Inv(s, mode) && Fresh(s) && SnapshotsOk(s) && ReadsOk(s) && InstallCompaction(s, t, ins, outs)
    ensures ReadsOk(t)
  {
    var db, m := s.phase.db, s.disk.manifest;
    var inputs, others := TableEntries(s.disk.tables, ins), TableEntries(s.disk.tables, m.tables - ins);
    var outputs := TableEntries(s.disk.tables, outs);
    SplitTables(s.disk.tables, m.tables, ins);
    JoinTables(s.disk.tables, m.tables - ins, outs);
    TablesCompacted(inputs, others, outputs, s.retired, Logs(s), m.lastSequence, db.compacting.value, db.lastSequence);
  }

  lemma SplitTables(tables: map<nat, set<Entry>>, live: set<nat>, ins: set<nat>)
    requires ins <= live
    ensures TableEntries(tables, live) == TableEntries(tables, ins) + TableEntries(tables, live - ins)
  {
  }

  lemma JoinTables(tables: map<nat, set<Entry>>, some: set<nat>, more: set<nat>)
    ensures TableEntries(tables, some + more) == TableEntries(tables, more) + TableEntries(tables, some)
  {
  }

  lemma CrashKeepsReads(s: State, t: State, mode: Mode, logs: map<nat, Log>)
    requires ReadsOk(s) && Crash(s, t, mode, logs)
    ensures ReadsOk(t)
  {
    forall e | e in Logs(t) ensures e in Logs(s) {
      var n :| n in logs && n >= s.disk.manifest.logNumber && e in LogEntries(logs[n], ProcessCrash);
      assert Survives(s.disk.logs[n], logs[n], mode);
      assert e in LogEntries(s.disk.logs[n], ProcessCrash);
    }
    QuietStep(s, t);
  }

  lemma ReplayKeepsReads(s: State, t: State, files: seq<set<Entry>>, ok: bool, seen: nat, mode: Mode)
    requires Inv(s, mode) && ReadsOk(s) && RecoverLog(s, t, files, ok, seen)
    ensures ReadsOk(t)
  {
    var p, q := s.phase, t.phase;
    TablesAgree(s.disk.tables, t.disk.tables, s.disk.manifest.tables);
    QuietStep(s, t);
    forall e | e in TableEntries(t.disk.tables, q.edit) ensures e in Logs(t) {
      var n :| n in q.edit && n in t.disk.tables && e in t.disk.tables[n];
      if n in p.edit {
        assert t.disk.tables[n] == s.disk.tables[n];
        assert e in TableEntries(s.disk.tables, p.edit);
      } else {
        assert t.disk.tables[n] == files[n - p.next];
        assert e in Union(files) && p.todo[0] in p.todo;
        assert e in LogEntries(s.disk.logs[p.todo[0]], ProcessCrash);
      }
    }
    forall n | n in q.todo ensures n >= t.disk.manifest.logNumber {
      assert n in p.todo;
    }
  }

  lemma StartedKeepsReads(s: State, t: State, todo: seq<nat>, paranoid: bool)
    requires ReadsOk(s) && StartOpen(s, t, todo, paranoid)
    ensures ReadsOk(t)
  {
    QuietStep(s, t);
    assert TableEntries(t.disk.tables, t.phase.edit) == {};
  }

  lemma CreatedKeepsReads(s: State, t: State, mode: Mode)
    requires Inv(s, mode) && ReadsOk(s) && CreateLog(s, t)
    ensures ReadsOk(t)
  {
    forall e | e in Logs(t) ensures e in Logs(s) {
      var n :| n in t.disk.logs && n >= t.disk.manifest.logNumber && e in LogEntries(t.disk.logs[n], ProcessCrash);
      assert n in s.disk.logs;
    }
    LogsAgree(s.disk.logs, t.disk.logs, s.disk.manifest.logNumber, ProcessCrash);
    QuietStep(s, t);
  }

  lemma OpenedKeepsReads(s: State, t: State, mode: Mode)
    requires Inv(s, mode) && Fresh(s) && ReadsOk(s) && FinishOpen(s, t, mode)
    ensures ReadsOk(t)
  {
    var p, m := s.phase, s.disk.manifest;
    var X := TableEntries(s.disk.tables, p.edit);
    assert Logs(t) == {};
    JoinTables(s.disk.tables, m.tables, p.edit);
    assert Tables(t) == Tables(s) + X;
    TablesGain(Tables(s), s.retired, Logs(s), m.lastSequence, X, Logs(t), t.disk.manifest.lastSequence);
  }

  lemma EditKeepsReads(s: State, t: State, step: Step, mode: Mode)
    requires Inv(s, mode) && Fresh(s) && SnapshotsOk(s) && ReadsOk(s) && Next(s, t, step, mode) && step.Edits()
    ensures ReadsOk(t)
  {
    if step.Installing? {
      FlushKeepsReads(s, t, mode);
    } else {
      CompactionKeepsReads(s, t, step.ins, step.outs, mode);
    }
  }

  lemma ForegroundKeepsReads(s: State, t: State, step: Step, mode: Mode)
    requires Inv(s, mode) && Fresh(s) && ReadsOk(s) && Next(s, t, step, mode) && step.Writes()
    ensures ReadsOk(t)
  {
    if step.Appending? {
      AppendKeepsReads(s, t, step.rec, step.sync, step.last, mode);
    } else if step.Syncing? || step.Switching? {
      WriteStepKeepsReads(s, t, step, mode);
    } else {
      MemoryStepKeepsReads(s, t, step, mode);
    }
  }

  lemma BackgroundKeepsReads(s: State, t: State, step: Step, mode: Mode)
    requires Inv(s, mode) && ReadsOk(s) && Next(s, t, step, mode) && (step.InBackground() || step.Manages())
    ensures ReadsOk(t)
  {
    if step.Building? || step.Writing? || step.DeletingLog? || step.DeletingTable? {
      BackgroundStepKeepsReads(s, t, step, mode);
    } else {
      MemoryStepKeepsReads(s, t, step, mode);
    }
  }

  lemma RecoveryKeepsReads(s: State, t: State, step: Step, mode: Mode)
    requires Inv(s, mode) && Fresh(s) && ReadsOk(s) && Next(s, t, step, mode) && step.Recovers()
    ensures ReadsOk(t)
  {
    if step.Replaying? {
      ReplayKeepsReads(s, t, step.files, step.ok, step.seen, mode);
    } else if step.CreatingLog? {
      CreatedKeepsReads(s, t, mode);
    } else {
      OpenedKeepsReads(s, t, mode);
    }
  }

  lemma NextKeepsReads(s: State, t: State, step: Step, mode: Mode)
    requires Inv(s, mode) && Fresh(s) && SnapshotsOk(s) && ReadsOk(s) && Next(s, t, step, mode)
    ensures ReadsOk(t)
  {
    if step.Writes() {
      ForegroundKeepsReads(s, t, step, mode);
    } else if step.Edits() {
      EditKeepsReads(s, t, step, mode);
    } else if step.InBackground() || step.Manages() {
      BackgroundKeepsReads(s, t, step, mode);
    } else if step.Crashing? {
      CrashKeepsReads(s, t, mode, step.logs);
    } else if step.Opening? {
      StartedKeepsReads(s, t, step.todo, step.paranoid);
    } else {
      RecoveryKeepsReads(s, t, step, mode);
    }
  }

  lemma {:induction false} RunKeepsReads(trace: seq<State>, steps: seq<Step>, mode: Mode, i: nat)
    requires Behavior(trace, steps, mode) && i < |trace|
    ensures ReadsOk(trace[i])
  {
    if i == 0 {
      InitReads(trace[0]);
    } else {
      RunKeepsReads(trace, steps, mode, i - 1);
      RunKeepsInv(trace, steps, mode, i - 1);
      assert StepAt(trace, steps, mode, i - 1);
      NextKeepsReads(trace[i - 1], trace[i], steps[i - 1], mode);
    }
  }

  // ---- The promise ----

  /** What compactions left out changes nothing that can be read from the disk at the present or later. */
  lemma RetiredIsInvisible(s: State, mode: Mode, k: Key, t: nat)
    requires ReadsOk(s) && t >= s.disk.manifest.lastSequence
    ensures Unique(Durable(s.disk, mode) + s.retired) && Unique(Durable(s.disk, mode))
    ensures Lookup(Durable(s.disk, mode), k, t) == Lookup(Durable(s.disk, mode) + s.retired, k, t)
  {
    var T, R := Tables(s), s.retired;
    var L := LogsFrom(s.disk.logs, s.disk.manifest.logNumber, mode);
    forall e | e in L ensures e in Logs(s) {
      var n :| n in s.disk.logs && n >= s.disk.manifest.logNumber && e in LogEntries(s.disk.logs[n], mode);
      assert e in LogEntries(s.disk.logs[n], ProcessCrash);
    }
    assert Durable(s.disk, mode) + R == (T + R) + L;
    AddNewer(T + R, T, L, s.disk.manifest.lastSequence);
  }

  /** Whatever crashes happen, if log replays are complete an acknowledged write that is the newest of its key is what a
      reader of the disk finds: its value, or nothing if it deletes the key. */
  lemma AcknowledgedIsRead(trace: seq<State>, steps: seq<Step>, mode: Mode, i: nat, e: Entry, t: nat)
    requires Behavior(trace, steps, mode) && ReplaysComplete(trace, steps) && i < |trace|
    requires e in trace[i].acked && t >= e.seqno && t >= trace[i].disk.manifest.lastSequence
    requires forall f :: f in Durable(trace[i].disk, mode) + trace[i].retired && f.key == e.key ==> f.seqno <= e.seqno
    ensures Unique(Durable(trace[i].disk, mode))
    ensures Lookup(Durable(trace[i].disk, mode), e.key, t) == if e.kind.TypeValue? then Some(e.value) else None
  {
    var s := trace[i];
    NothingLost(trace, steps, mode, i);
    RunKeepsReads(trace, steps, mode, i);
    RetiredIsInvisible(s, mode, e.key, t);
    LookupNewest(Durable(s.disk, mode) + s.retired, e.key, t, e);
  }
}
