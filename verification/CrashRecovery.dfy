/** Log, memtable, manifest and reopening: which writes survive a crash at any point. */
module CrashRecovery {
  import opened Options
  import opened Run
  import Compaction

  /** What a crash may take: nothing written to a file (the process dies), or the unsynced ends of logs (power fails). */
  datatype Mode = ProcessCrash | PowerFailure

  /** An append-only log; the first `synced` records have been synced. */
  datatype Log = Log(records: seq<set<Entry>>, synced: nat)

  /** The state the manifest describes; edits to it are atomic. */
  datatype Manifest = Manifest(logNumber: nat, tables: set<nat>, nextFile: nat, lastSequence: nat)

  datatype Disk = Disk(manifest: Manifest, logs: map<nat, Log>, tables: map<nat, set<Entry>>)

  /** The write in progress: its record is in the log but not yet in the memtable. */
  datatype InFlight = Idle | Logged(rec: set<Entry>, sync: bool, synced: bool, last: nat)

  /** The stages of CompactMemTable. An empty memtable yields no table. */
  datatype Flush = NoFlush | Built(table: Option<nat>) | Prepared(table: Option<nat>, log: nat) | Installed

  datatype DB = DB(
    mem: set<Entry>,
    imm: Option<set<Entry>>,
    logfile: nat,              // number of the log being written
    next: nat,                 // next file number
    lastSequence: nat,
    write: InFlight,
    flush: Flush,
    pending: set<nat>,         // compaction outputs not yet in the manifest
    snapshots: seq<nat>,       // held by readers, in the order taken
    compacting: Option<nat>)   // the oldest snapshot, as the running compaction has found it

  /** The database just opened. */
  function NewDB(logfile: nat, next: nat, lastSequence: nat): DB {
    DB({}, None, logfile, next, lastSequence, Idle, NoFlush, {}, [], None)
  }

  datatype Phase =
    | Closed
    | Recovering(
        paranoid: bool,            // options_.paranoid_checks
        todo: seq<nat>, edit: set<nat>, ok: bool, next: nat, maxSequence: nat,
        newLog: Option<nat>,       // the log for the writes to come, once it is created
        skipped: set<Entry>)
    | Open(db: DB)

  /** acked: the acknowledged writes that the mode promises to keep. retired: entries a compaction left out.
      lost: entries that were durable before some reopening and not after it. */
  datatype State = State(disk: Disk, phase: Phase, acked: set<Entry>, retired: set<Entry>, lost: set<Entry>)

  ghost function LogEntries(l: Log, mode: Mode): set<Entry> {
    set i, e | 0 <= i < |l.records| && (mode == PowerFailure ==> i < l.synced) && e in l.records[i] :: e
  }

  ghost function LogsFrom(logs: map<nat, Log>, min: nat, mode: Mode): set<Entry> {
    set n, e | n in logs && n >= min && e in LogEntries(logs[n], mode) :: e
  }

  ghost function TableEntries(tables: map<nat, set<Entry>>, live: set<nat>): set<Entry> {
    set n, e | n in live && n in tables && e in tables[n] :: e
  }

  /** What reopening can read back: the tables named by the manifest and the logs it still asks for. */
  ghost function Durable(d: Disk, mode: Mode): set<Entry> {
    TableEntries(d.tables, d.manifest.tables) + LogsFrom(d.logs, d.manifest.logNumber, mode)
  }

  // ---- Steps ----

  predicate Init(s: State) {
    s == State(Disk(Manifest(0, {}, 2, 0), map[], map[]), Closed, {}, {}, {})
  }

  ghost predicate Within(S: set<Entry>, low: nat, high: nat) {
    forall e :: e in S ==> low < e.seqno <= high
  }

  /** No entry is newer than n. */
  ghost predicate UpTo(S: set<Entry>, n: nat) {
    forall e :: e in S ==> e.seqno <= n
  }

  /** The leading writer appends its record to the log, under the sequence numbers after the last one, up to `last`. */
  ghost predicate Append(s: State, t: State, rec: set<Entry>, sync: bool, last: nat) {
    && s.phase.Open? && s.phase.db.lastSequence <= last && Within(rec, s.phase.db.lastSequence, last)
    && s.phase.db.write == Idle && s.phase.db.logfile in s.disk.logs && Unique(rec)
    && var db, log := s.phase.db, s.disk.logs[s.phase.db.logfile];
       && t == s.(disk := s.disk.(logs := s.disk.logs[db.logfile := log.(records := log.records + [rec])]),
                  phase := Open(db.(write := Logged(rec, sync, false, last))))
  }

  predicate Sync(s: State, t: State) {
    && s.phase.Open? && s.phase.db.write.Logged? && s.phase.db.write.sync && s.phase.db.logfile in s.disk.logs
    && var db, log := s.phase.db, s.disk.logs[s.phase.db.logfile];
       && t == s.(disk := s.disk.(logs := s.disk.logs[db.logfile := log.(synced := |log.records|)]),
                  phase := Open(db.(write := db.write.(synced := true))))
  }

  /** The record goes into the memtable and the write is acknowledged; a sync write only after its sync. */
  predicate Insert(s: State, t: State, mode: Mode) {
    && s.phase.Open? && s.phase.db.write.Logged? && (s.phase.db.write.sync ==> s.phase.db.write.synced)
    && var db := s.phase.db;
       && t == s.(phase := Open(db.(mem := db.mem + db.write.rec, write := Idle, lastSequence := db.write.last)),
                  acked := if mode == ProcessCrash || db.write.sync then s.acked + db.write.rec else s.acked)
  }

  /** The sync or, halfway, the insertion failed; the write is reported as failed. */
  predicate GiveUp(s: State, t: State, part: set<Entry>) {
    && s.phase.Open? && s.phase.db.write.Logged? && part <= s.phase.db.write.rec
    && (part != {} && s.phase.db.write.sync ==> s.phase.db.write.synced)
    && var db := s.phase.db;
       && t == s.(phase := Open(db.(mem := db.mem + part, write := Idle, lastSequence := db.write.last)))
  }

  /** Nothing of the record got into the log, but its sequence numbers are used up. */
  predicate FailAppend(s: State, t: State, last: nat) {
    && s.phase.Open? && s.phase.db.write == Idle && s.phase.db.lastSequence <= last
    && t == s.(phase := Open(s.phase.db.(lastSequence := last)))
  }

  /** MakeRoomForWrite: a new log, and the memtable becomes immutable. */
  predicate SwitchMemTable(s: State, t: State) {
    && s.phase.Open? && s.phase.db.imm == None && s.phase.db.write == Idle
    && var db := s.phase.db;
       && t == s.(disk := s.disk.(logs := s.disk.logs[db.next := Log([], 0)]),
                  phase := Open(db.(logfile := db.next, next := db.next + 1, imm := Some(db.mem), mem := {})))
  }

  /** CompactMemTable, first part: the table file is written while writers go on. */
  predicate BuildTable(s: State, t: State) {
    && s.phase.Open? && s.phase.db.flush == NoFlush && s.phase.db.imm.Some?
    && var db := s.phase.db;
       if db.imm.value == {} then
         t == s.(phase := Open(db.(flush := Built(None), next := db.next + 1)))
       else
         t == s.(disk := s.disk.(tables := s.disk.tables[db.next := db.imm.value]),
                 phase := Open(db.(flush := Built(Some(db.next)), next := db.next + 1)))
  }

  /** The edit takes the current log number: earlier logs are no longer needed. */
  predicate PrepareEdit(s: State, t: State) {
    && s.phase.Open? && s.phase.db.flush.Built?
    && t == s.(phase := Open(s.phase.db.(flush := Prepared(s.phase.db.flush.table, s.phase.db.logfile))))
  }

  function Added(table: Option<nat>): set<nat> {
    if table.Some? then {table.value} else {}
  }

  predicate InstallEdit(s: State, t: State) {
    && s.phase.Open? && s.phase.db.flush.Prepared?
    && var db, m := s.phase.db, s.disk.manifest;
       && t == s.(disk := s.disk.(manifest := Manifest(db.flush.log, m.tables + Added(db.flush.table), db.next, db.lastSequence)),
                  phase := Open(db.(flush := Installed)))
  }

  /** The flush is given up at any stage before the edit; it will be tried again. */
  predicate AbandonFlush(s: State, t: State) {
    && s.phase.Open? && (s.phase.db.flush.Built? || s.phase.db.flush.Prepared?)
    && t == s.(phase := Open(s.phase.db.(flush := NoFlush)))
  }

  predicate DropImm(s: State, t: State) {
    && s.phase.Open? && s.phase.db.flush == Installed
    && t == s.(phase := Open(s.phase.db.(imm := None, flush := NoFlush)))
  }

  /** DeleteObsoleteFiles, one file at a time. The one background thread calls it, never inside a flush. */
  predicate DeleteLog(s: State, t: State, n: nat) {
    && s.phase.Open? && s.phase.db.flush == NoFlush && n < s.disk.manifest.logNumber
    && t == s.(disk := s.disk.(logs := s.disk.logs - {n}))
  }

  predicate DeleteTable(s: State, t: State, n: nat) {
    && s.phase.Open? && s.phase.db.flush == NoFlush && n !in s.disk.manifest.tables && n !in s.phase.db.pending
    && t == s.(disk := s.disk.(tables := s.disk.tables - {n}))
  }

  /** GetSnapshot: a reader holds on to the present. */
  predicate TakeSnapshot(s: State, t: State) {
    && s.phase.Open?
    && t == s.(phase := Open(s.phase.db.(snapshots := s.phase.db.snapshots + [s.phase.db.lastSequence])))
  }

  /** ReleaseSnapshot: any of them may go. */
  predicate ReleaseSnapshot(s: State, t: State, i: nat) {
    && s.phase.Open? && i < |s.phase.db.snapshots|
    && var list := s.phase.db.snapshots;
       t == s.(phase := Open(s.phase.db.(snapshots := list[..i] + list[i + 1..])))
  }

  /** The one background thread starts a compaction: it looks for the oldest snapshot once, at the start. */
  predicate StartCompaction(s: State, t: State) {
    && s.phase.Open? && s.phase.db.flush == NoFlush && s.phase.db.compacting == None
    && var db := s.phase.db;
       t == s.(phase := Open(db.(compacting := Some(Compaction.SmallestSnapshot(db.snapshots, db.lastSequence)))))
  }

  /** The compaction has failed; its outputs will be deleted. */
  predicate AbandonCompaction(s: State, t: State) {
    && s.phase.Open? && s.phase.db.flush == NoFlush && s.phase.db.compacting.Some?
    && t == s.(phase := Open(s.phase.db.(compacting := None, pending := {})))
  }

  /** A compaction writes an output file, and later swaps inputs for outputs in one edit. */
  ghost predicate WriteOutput(s: State, t: State, content: set<Entry>) {
    && s.phase.Open? && s.phase.db.flush == NoFlush && s.phase.db.compacting.Some?
    && content <= TableEntries(s.disk.tables, s.disk.manifest.tables)
    && var db := s.phase.db;
       && t == s.(disk := s.disk.(tables := s.disk.tables[db.next := content]),
                  phase := Open(db.(pending := db.pending + {db.next}, next := db.next + 1)))
  }

  /** outputs are what the drop rule leaves of the inputs, all entries of their levels; others are in other tables. */
  ghost predicate Merged(inputs: set<Entry>, others: set<Entry>, outputs: set<Entry>, oldest: nat) {
    exists input: seq<Entry>, p: Compaction.Policy ::
      && Sorted(input) && Entries(input) == inputs && Compaction.Consistent(input, p, others)
      && p.smallestSnapshot == oldest
      && outputs == Entries(Compaction.Survivors(input, p, |input|))
  }

  ghost predicate InstallCompaction(s: State, t: State, ins: set<nat>, outs: set<nat>) {
    && s.phase.Open? && s.phase.db.flush == NoFlush && s.phase.db.compacting.Some? && ins <= s.disk.manifest.tables && outs <= s.phase.db.pending
    && var db, m := s.phase.db, s.disk.manifest;
       var live := m.tables - ins + outs;
       && Merged(TableEntries(s.disk.tables, ins), TableEntries(s.disk.tables, m.tables - ins), TableEntries(s.disk.tables, outs),
                 db.compacting.value)
       && t == s.(disk := s.disk.(manifest := m.(tables := live, nextFile := db.next, lastSequence := db.lastSequence)),
                  phase := Open(db.(pending := {}, compacting := None)),
                  retired := s.retired + (TableEntries(s.disk.tables, m.tables) - TableEntries(s.disk.tables, live)))
  }

  /** A crash: memory is gone; a power failure also cuts logs anywhere beyond what was synced. */
  ghost predicate Crash(s: State, t: State, mode: Mode, logs: map<nat, Log>) {
    && logs.Keys == s.disk.logs.Keys
    && (forall n :: n in logs ==> Survives(s.disk.logs[n], logs[n], mode))
    && t == s.(disk := s.disk.(logs := logs), phase := Closed)
  }

  predicate Survives(before: Log, after: Log, mode: Mode) {
    if mode == ProcessCrash then after == before
    else after.synced == before.synced && after.records <= before.records
         && (before.synced <= |before.records| ==> before.synced <= |after.records|)
  }

  function Max(a: nat, b: nat): nat {
    if a < b then b else a
  }

  /** Recover lists the logs the manifest still asks for, oldest first. */
  ghost predicate StartOpen(s: State, t: State, todo: seq<nat>, paranoid: bool) {
    && s.phase == Closed
    && (forall i, j :: 0 <= i < j < |todo| ==> todo[i] < todo[j])
    && (forall n :: n in todo <==> n in s.disk.logs && n >= s.disk.manifest.logNumber)
    && t == s.(phase := Recovering(paranoid, todo, {}, true, Max(s.disk.manifest.nextFile, s.disk.manifest.logNumber + 1), 0, None, {}))
  }

  ghost function Union(files: seq<set<Entry>>): set<Entry> {
    set i, e | 0 <= i < |files| && e in files[i] :: e
  }

  function Numbers(from: nat, count: nat): (r: set<nat>)
    ensures forall n :: n in r <==> from <= n < from + count
  {
    if count == 0 then {} else Numbers(from, count - 1) + {from + count - 1}
  }

  /** Table files written under consecutive numbers. */
  function AddFiles(tables: map<nat, set<Entry>>, from: nat, files: seq<set<Entry>>): (r: map<nat, set<Entry>>)
    ensures r.Keys == tables.Keys + Numbers(from, |files|)
    ensures forall n :: n in tables && !(from <= n < from + |files|) ==> r[n] == tables[n]
    ensures forall i :: 0 <= i < |files| ==> r[from + i] == files[i]
    decreases |files|
  {
    if files == [] then tables else
      var r := AddFiles(tables, from, files[..|files| - 1]);
      r[from + |files| - 1 := files[|files| - 1]]
  }

  /** The next log to be replayed, whole. */
  ghost function NextLog(s: State): set<Entry>
    requires s.phase.Recovering? && s.phase.todo != [] && s.phase.todo[0] in s.disk.logs
  {
    LogEntries(s.disk.logs[s.phase.todo[0]], ProcessCrash)
  }

  /** RecoverLogFile replays one log into tables; errors may leave an arbitrary part out. Only with paranoid checks does
      success mean that nothing was left out: without them a log that cannot be opened, records that are corrupt and
      batches that cannot be inserted are ignored. Each log's status replaces that of the log before it. */
  ghost predicate RecoverLog(s: State, t: State, files: seq<set<Entry>>, ok: bool, seen: nat) {
    && s.phase.Recovering? && s.phase.todo != [] && s.phase.todo[0] in s.disk.logs
    && var p, log := s.phase, NextLog(s);
       && Union(files) <= log && (ok && p.paranoid ==> Union(files) == log) && p.maxSequence <= seen && UpTo(Union(files), seen)
       && t == s.(disk := s.disk.(tables := AddFiles(s.disk.tables, p.next, files)),
                  phase := p.(todo := p.todo[1..], edit := p.edit + Numbers(p.next, |files|), ok := ok,
                              next := Max(p.next + |files|, p.todo[0] + 1), maxSequence := seen,
                              skipped := p.skipped + (log - Union(files))))
  }

  /** Open goes on if the last status was good, with a fresh log. */
  ghost predicate CreateLog(s: State, t: State) {
    && s.phase.Recovering? && s.phase.todo == [] && s.phase.ok && s.phase.newLog == None
    && var p := s.phase;
       && t == s.(disk := s.disk.(logs := s.disk.logs[p.next := Log([], 0)]),
                  phase := p.(next := p.next + 1, newLog := Some(p.next)))
  }

  /** One edit names the new tables and gives up every older log. */
  ghost predicate FinishOpen(s: State, t: State, mode: Mode) {
    && s.phase.Recovering? && s.phase.newLog.Some?
    && var p, d := s.phase, s.disk;
       var last := Max(d.manifest.lastSequence, p.maxSequence);
       var disk := d.(manifest := Manifest(p.newLog.value, d.manifest.tables + p.edit, p.next, last));
       && t == s.(disk := disk,
                  phase := Open(NewDB(p.newLog.value, p.next, last)),
                  lost := s.lost + (Durable(d, mode) - Durable(disk, mode)))
  }

  datatype Step =
    | Appending(rec: set<Entry>, sync: bool, last: nat) | FailingAppend(last: nat) | Syncing | Inserting
    | GivingUp(part: set<Entry>)
    | Switching | Building | Preparing | Installing | Abandoning | Dropping
    | DeletingLog(n: nat) | DeletingTable(n: nat) | Writing(content: set<Entry>) | Compacting(ins: set<nat>, outs: set<nat>)
    | TakingSnapshot | ReleasingSnapshot(i: nat) | StartingCompaction | AbandoningCompaction
    | Crashing(logs: map<nat, Log>) | Opening(todo: seq<nat>, paranoid: bool)
    | Replaying(files: seq<set<Entry>>, ok: bool, seen: nat) | CreatingLog | Opened
  {
    predicate Writes() {
      Appending? || FailingAppend? || Syncing? || Inserting? || GivingUp? || Switching?
    }

    /** Steps of the snapshot list and the compaction that touch no file. */
    predicate Manages() {
      TakingSnapshot? || ReleasingSnapshot? || StartingCompaction? || AbandoningCompaction?
    }

    predicate Edits() {
      Installing? || Compacting?
    }

    predicate Recovers() {
      Replaying? || CreatingLog? || Opened?
    }

    predicate InBackground() {
      Building? || Preparing? || Abandoning? || Dropping? || Writing? || DeletingLog? || DeletingTable?
    }
  }

  ghost predicate Next(s: State, t: State, step: Step, mode: Mode) {
    match step
    case Appending(rec, sync, last) => Append(s, t, rec, sync, last)
    case Syncing => Sync(s, t)
    case Inserting => Insert(s, t, mode)
    case FailingAppend(last) => FailAppend(s, t, last)
    case GivingUp(part) => GiveUp(s, t, part)
    case Switching => SwitchMemTable(s, t)
    case Building => BuildTable(s, t)
    case Preparing => PrepareEdit(s, t)
    case Installing => InstallEdit(s, t)
    case Abandoning => AbandonFlush(s, t)
    case Dropping => DropImm(s, t)
    case DeletingLog(n) => DeleteLog(s, t, n)
    case DeletingTable(n) => DeleteTable(s, t, n)
    case Writing(content) => WriteOutput(s, t, content)
    case Compacting(ins, outs) => InstallCompaction(s, t, ins, outs)
    case TakingSnapshot => TakeSnapshot(s, t)
    case ReleasingSnapshot(i) => ReleaseSnapshot(s, t, i)
    case StartingCompaction => StartCompaction(s, t)
    case AbandoningCompaction => AbandonCompaction(s, t)
    case Crashing(logs) => Crash(s, t, mode, logs)
    case Opening(todo, paranoid) => StartOpen(s, t, todo, paranoid)
    case Replaying(files, ok, seen) => RecoverLog(s, t, files, ok, seen)
    case CreatingLog => CreateLog(s, t)
    case Opened => FinishOpen(s, t, mode)
  }

  // ---- The invariant ----

  ghost predicate Below(S: set<nat>, bound: nat) {
    forall n :: n in S ==> n < bound
  }

  ghost predicate FilesOk(d: Disk) {
    && d.manifest.tables <= d.tables.Keys && Below(d.manifest.tables, d.manifest.nextFile)
    && (forall n :: n in d.logs ==> d.logs[n].synced <= |d.logs[n].records|)
  }

  ghost predicate FlushOk(d: Disk, db: DB) {
    match db.flush
    case NoFlush => true
    case Built(table) => TableHoldsImm(d, db, table)
    case Prepared(table, log) => TableHoldsImm(d, db, table) && log == db.logfile
    case Installed => db.imm.Some? && db.imm.value <= TableEntries(d.tables, d.manifest.tables)
  }

  ghost predicate TableHoldsImm(d: Disk, db: DB, table: Option<nat>) {
    && db.imm.Some?
    && match table
       case None => db.imm.value == {}
       case Some(n) => n in d.tables && d.tables[n] == db.imm.value && n < db.next
  }

  ghost predicate WriteOk(d: Disk, db: DB)
    requires db.logfile in d.logs
  {
    db.write.Logged? ==>
      && db.write.rec <= LogEntries(d.logs[db.logfile], ProcessCrash)
      && (db.write.synced ==> db.write.rec <= LogEntries(d.logs[db.logfile], PowerFailure))
  }

  /** The memtable's writes are in the current log, the immutable one's in the logs the manifest still asks for
      (or already in a table of the manifest). */
  ghost predicate MemOk(d: Disk, db: DB)
    requires db.logfile in d.logs
  {
    && db.mem <= LogEntries(d.logs[db.logfile], ProcessCrash)
    && (db.imm.Some? && db.flush != Installed ==> db.imm.value <= LogsFrom(d.logs, d.manifest.logNumber, ProcessCrash))
  }

  ghost function Imm(db: DB): set<Entry> {
    if db.imm.Some? then db.imm.value else {}
  }

  ghost predicate AckedOk(s: State, db: DB, mode: Mode)
    requires db.logfile in s.disk.logs
  {
    s.acked <= TableEntries(s.disk.tables, s.disk.manifest.tables) + s.retired + s.lost
             + db.mem * LogEntries(s.disk.logs[db.logfile], mode)
             + Imm(db) * LogsFrom(s.disk.logs, s.disk.manifest.logNumber, mode)
  }

  ghost predicate OpenInv(s: State, db: DB, mode: Mode) {
    && db.logfile in s.disk.logs && s.disk.manifest.logNumber <= db.logfile
    && Below(s.disk.logs.Keys, db.next) && s.disk.manifest.nextFile <= db.next
    && db.pending <= s.disk.tables.Keys && Below(db.pending, db.next)
    && FlushOk(s.disk, db) && WriteOk(s.disk, db) && MemOk(s.disk, db) && AckedOk(s, db, mode)
  }

  ghost predicate RecoveryInv(s: State) {
    && s.phase.Recovering?
    && var p, m := s.phase, s.disk.manifest;
       && m.nextFile <= p.next && m.logNumber < p.next
       && p.edit <= s.disk.tables.Keys && Below(p.edit, p.next)
       && (forall n :: n in p.todo ==> n in s.disk.logs)
       && (forall n :: n in s.disk.logs && n >= m.logNumber ==>
             n in p.todo || (n < p.next && LogEntries(s.disk.logs[n], ProcessCrash)
                                             <= TableEntries(s.disk.tables, p.edit) + p.skipped))
       && (p.newLog.Some? ==> p.todo == [] && p.next == p.newLog.value + 1 && LastLog(s.disk.logs, p.newLog.value))
  }

  /** The log is the newest one, and empty. */
  ghost predicate LastLog(logs: map<nat, Log>, n: nat) {
    n in logs && logs[n] == Log([], 0) && Below(logs.Keys, n + 1)
  }

  ghost predicate Inv(s: State, mode: Mode) {
    && FilesOk(s.disk)
    && match s.phase
       case Open(db) => OpenInv(s, db, mode)
       case Closed => s.acked <= Durable(s.disk, mode) + s.retired + s.lost
       case Recovering(_, _, _, _, _, _, _, _) => RecoveryInv(s) && s.acked <= Durable(s.disk, mode) + s.retired + s.lost
  }

  // ---- Every step keeps it ----

  lemma LogGrows(before: Log, after: Log, mode: Mode)
    requires before.records <= after.records && before.synced <= after.synced
    ensures LogEntries(before, mode) <= LogEntries(after, mode)
  {
    forall e | e in LogEntries(before, mode) ensures e in LogEntries(after, mode) {
      var i :| 0 <= i < |before.records| && (mode == PowerFailure ==> i < before.synced) && e in before.records[i];
      assert after.records[i] == before.records[i];
    }
  }

  /** Replacing one log by a longer or further synced one loses nothing. */
  lemma LogsGrow(logs: map<nat, Log>, n: nat, after: Log, min: nat, mode: Mode)
    requires n in logs && logs[n].records <= after.records && logs[n].synced <= after.synced
    ensures LogsFrom(logs, min, mode) <= LogsFrom(logs[n := after], min, mode)
  {
    LogGrows(logs[n], after, mode);
    forall e | e in LogsFrom(logs, min, mode) ensures e in LogsFrom(logs[n := after], min, mode) {
      var m :| m in logs && m >= min && e in LogEntries(logs[m], mode);
      assert e in LogEntries(logs[n := after][m], mode);
    }
  }

  lemma TablesAgree(before: map<nat, set<Entry>>, after: map<nat, set<Entry>>, live: set<nat>)
    requires live <= before.Keys && live <= after.Keys && forall n :: n in live ==> before[n] == after[n]
    ensures TableEntries(before, live) == TableEntries(after, live)
  {
    forall e | e in TableEntries(before, live) ensures e in TableEntries(after, live) {
      var n :| n in live && n in before && e in before[n];
      assert e in after[n];
    }
    forall e | e in TableEntries(after, live) ensures e in TableEntries(before, live) {
      var n :| n in live && n in after && e in after[n];
      assert e in before[n];
    }
  }

  lemma LogsAgree(before: map<nat, Log>, after: map<nat, Log>, min: nat, mode: Mode)
    requires forall n :: n in before && n >= min ==> n in after && after[n] == before[n]
    ensures LogsFrom(before, min, mode) <= LogsFrom(after, min, mode)
  {
    forall e | e in LogsFrom(before, min, mode) ensures e in LogsFrom(after, min, mode) {
      var n :| n in before && n >= min && e in LogEntries(before[n], mode);
      assert e in LogEntries(after[n], mode);
    }
  }

  lemma LogStepKeepsInv(s: State, t: State, step: Step, mode: Mode)
    requires Inv(s, mode) && Next(s, t, step, mode) && (step.Appending? || step.Syncing?)
    ensures Inv(t, mode)
  {
    var db := s.phase.db;
    var before, after := s.disk.logs[db.logfile], t.disk.logs[db.logfile];
    LogGrows(before, after, mode);
    LogGrows(before, after, ProcessCrash);
    LogsGrow(s.disk.logs, db.logfile, after, s.disk.manifest.logNumber, mode);
    LogsGrow(s.disk.logs, db.logfile, after, s.disk.manifest.logNumber, ProcessCrash);
    if step.Appending? {
      assert after.records[|before.records|] == step.rec;
    }
  }

  lemma MemtableStepKeepsInv(s: State, t: State, step: Step, mode: Mode)
    requires Inv(s, mode) && Next(s, t, step, mode) && (step.FailingAppend? || step.Inserting? || step.GivingUp?)
    ensures Inv(t, mode)
  {
  }

  lemma FlushStateKeepsInv(s: State, t: State, step: Step, mode: Mode)
    requires Inv(s, mode) && Next(s, t, step, mode) && (step.Preparing? || step.Abandoning? || step.Dropping?)
    ensures Inv(t, mode)
  {
  }

  lemma ManageStepKeepsInv(s: State, t: State, step: Step, mode: Mode)
    requires Inv(s, mode) && Next(s, t, step, mode) && step.Manages()
    ensures Inv(t, mode)
  {
  }

  lemma SwitchKeepsInv(s: State, t: State, mode: Mode)
    requires Inv(s, mode) && SwitchMemTable(s, t)
    ensures Inv(t, mode)
  {
    var db, min := s.phase.db, s.disk.manifest.logNumber;
    LogsAgree(s.disk.logs, t.disk.logs, min, mode);
    LogsAgree(s.disk.logs, t.disk.logs, min, ProcessCrash);
    forall m, e | e in LogEntries(s.disk.logs[db.logfile], m) ensures e in LogsFrom(s.disk.logs, min, m) {}
  }

  lemma BuildKeepsInv(s: State, t: State, mode: Mode)
    requires Inv(s, mode) && BuildTable(s, t)
    ensures Inv(t, mode)
  {
    TablesAgree(s.disk.tables, t.disk.tables, s.disk.manifest.tables);
  }

  lemma InstallKeepsInv(s: State, t: State, mode: Mode)
    requires Inv(s, mode) && InstallEdit(s, t)
    ensures Inv(t, mode)
  {
    var db := s.phase.db;
    var before := TableEntries(s.disk.tables, s.disk.manifest.tables);
    var after := TableEntries(t.disk.tables, t.disk.manifest.tables);
    assert before <= after;
    if db.flush.table.Some? {
      assert s.disk.tables[db.flush.table.value] == Imm(db);
      assert Imm(db) <= after;
    }
  }

  lemma DeleteKeepsInv(s: State, t: State, step: Step, mode: Mode)
    requires Inv(s, mode) && Next(s, t, step, mode) && (step.DeletingLog? || step.DeletingTable?)
    ensures Inv(t, mode)
  {
    var min := s.disk.manifest.logNumber;
    TablesAgree(s.disk.tables, t.disk.tables, s.disk.manifest.tables);
    LogsAgree(s.disk.logs, t.disk.logs, min, mode);
    LogsAgree(s.disk.logs, t.disk.logs, min, ProcessCrash);
  }

  lemma CompactionKeepsInv(s: State, t: State, step: Step, mode: Mode)
    requires Inv(s, mode) && Next(s, t, step, mode) && (step.Writing? || step.Compacting?)
    ensures Inv(t, mode)
  {
    if step.Writing? {
      TablesAgree(s.disk.tables, t.disk.tables, s.disk.manifest.tables);
    }
  }

  lemma CrashKeepsInv(s: State, t: State, mode: Mode, logs: map<nat, Log>)
    requires Inv(s, mode) && Crash(s, t, mode, logs)
    ensures Inv(t, mode)
  {
    forall n | n in logs ensures LogEntries(s.disk.logs[n], mode) <= LogEntries(logs[n], mode) {
      assert Survives(s.disk.logs[n], logs[n], mode);
    }
    var min := s.disk.manifest.logNumber;
    forall e | e in LogsFrom(s.disk.logs, min, mode) ensures e in LogsFrom(logs, min, mode) {
      var n :| n in s.disk.logs && n >= min && e in LogEntries(s.disk.logs[n], mode);
      assert e in LogEntries(logs[n], mode);
    }
    if s.phase.Open? {
      assert LogEntries(s.disk.logs[s.phase.db.logfile], mode) <= LogsFrom(s.disk.logs, min, mode);
    }
  }

  /** Replaying a log adds its files to the tables of the edit, and touches no table of the manifest. */
  lemma ReplayedTables(s: State, t: State, files: seq<set<Entry>>, ok: bool, seen: nat)
    requires FilesOk(s.disk) && RecoveryInv(s) && RecoverLog(s, t, files, ok, seen)
    ensures TableEntries(t.disk.tables, s.disk.manifest.tables) == TableEntries(s.disk.tables, s.disk.manifest.tables)
    ensures TableEntries(s.disk.tables, s.phase.edit) + Union(files) <= TableEntries(t.disk.tables, t.phase.edit)
  {
    var p, q := s.phase, t.phase;
    TablesAgree(s.disk.tables, t.disk.tables, s.disk.manifest.tables);
    forall e | e in TableEntries(s.disk.tables, p.edit) ensures e in TableEntries(t.disk.tables, q.edit) {
      var n :| n in p.edit && n in s.disk.tables && e in s.disk.tables[n];
      assert t.disk.tables[n] == s.disk.tables[n];
    }
    forall e | e in Union(files) ensures e in TableEntries(t.disk.tables, q.edit) {
      var i :| 0 <= i < |files| && e in files[i];
      assert p.next + i in q.edit && t.disk.tables[p.next + i] == files[i];
    }
  }

  lemma ReplayKeepsInv(s: State, t: State, files: seq<set<Entry>>, ok: bool, seen: nat, mode: Mode)
    requires Inv(s, mode) && RecoverLog(s, t, files, ok, seen)
    ensures Inv(t, mode)
  {
    var p, q := s.phase, t.phase;
    ReplayedTables(s, t, files, ok, seen);
    forall n | n in p.todo ensures n == p.todo[0] || n in q.todo {}
  }

  lemma CreateLogKeepsInv(s: State, t: State, mode: Mode)
    requires Inv(s, mode) && CreateLog(s, t)
    ensures Inv(t, mode)
  {
    LogsAgree(s.disk.logs, t.disk.logs, s.disk.manifest.logNumber, mode);
  }

  lemma FinishOpenKeepsInv(s: State, t: State, mode: Mode)
    requires Inv(s, mode) && FinishOpen(s, t, mode)
    ensures Inv(t, mode)
  {
    var min := t.disk.manifest.logNumber;
    assert LogsFrom(t.disk.logs, min, mode) == {};
  }

  lemma WriteKeepsInv(s: State, t: State, step: Step, mode: Mode)
    requires Inv(s, mode) && Next(s, t, step, mode) && step.Writes()
    ensures Inv(t, mode)
  {
    if step.Appending? || step.Syncing? {
      LogStepKeepsInv(s, t, step, mode);
    } else if step.Switching? {
      SwitchKeepsInv(s, t, mode);
    } else {
      MemtableStepKeepsInv(s, t, step, mode);
    }
  }

  lemma BackgroundKeepsInv(s: State, t: State, step: Step, mode: Mode)
    requires Inv(s, mode) && Next(s, t, step, mode) && step.InBackground()
    ensures Inv(t, mode)
  {
    if step.Building? {
      BuildKeepsInv(s, t, mode);
    } else if step.Writing? {
      CompactionKeepsInv(s, t, step, mode);
    } else if step.DeletingLog? || step.DeletingTable? {
      DeleteKeepsInv(s, t, step, mode);
    } else {
      FlushStateKeepsInv(s, t, step, mode);
    }
  }

  lemma EditKeepsInv(s: State, t: State, step: Step, mode: Mode)
    requires Inv(s, mode) && Next(s, t, step, mode) && step.Edits()
    ensures Inv(t, mode)
  {
    if step.Installing? {
      InstallKeepsInv(s, t, mode);
    } else {
      CompactionKeepsInv(s, t, step, mode);
    }
  }

  lemma StartOpenKeepsInv(s: State, t: State, todo: seq<nat>, paranoid: bool, mode: Mode)
    requires Inv(s, mode) && StartOpen(s, t, todo, paranoid)
    ensures Inv(t, mode)
  {
  }

  lemma RecoveryKeepsInv(s: State, t: State, step: Step, mode: Mode)
    requires Inv(s, mode) && Next(s, t, step, mode) && step.Recovers()
    ensures Inv(t, mode)
  {
    if step.Replaying? {
      ReplayKeepsInv(s, t, step.files, step.ok, step.seen, mode);
    } else if step.CreatingLog? {
      CreateLogKeepsInv(s, t, mode);
    } else {
      FinishOpenKeepsInv(s, t, mode);
    }
  }

  lemma NextKeepsInv(s: State, t: State, step: Step, mode: Mode)
    requires Inv(s, mode) && Next(s, t, step, mode)
    ensures Inv(t, mode)
  {
    if step.Writes() {
      WriteKeepsInv(s, t, step, mode);
    } else if step.InBackground() {
      BackgroundKeepsInv(s, t, step, mode);
    } else if step.Edits() {
      EditKeepsInv(s, t, step, mode);
    } else if step.Manages() {
      ManageStepKeepsInv(s, t, step, mode);
    } else if step.Crashing? {
      CrashKeepsInv(s, t, mode, step.logs);
    } else if step.Opening? {
      StartOpenKeepsInv(s, t, step.todo, step.paranoid, mode);
    } else {
      RecoveryKeepsInv(s, t, step, mode);
    }
  }

  // ---- Sequence numbers across reopening ----

  /** Nothing that can be read is newer than the last sequence number (but for the write in progress). */
  ghost predicate Fresh(s: State) {
    && s.disk.manifest.tables <= s.disk.tables.Keys
    && UpTo(TableEntries(s.disk.tables, s.disk.manifest.tables), s.disk.manifest.lastSequence)
    && match s.phase
       case Closed => true
       case Recovering(_, _, edit, _, _, max, _, _) =>
         && edit <= s.disk.tables.Keys && UpTo(TableEntries(s.disk.tables, edit), max)
       case Open(db) =>
         && s.disk.manifest.lastSequence <= db.lastSequence
         && UpTo(db.mem + Imm(db), db.lastSequence)
         && (db.write.Logged? ==> db.lastSequence <= db.write.last && Within(db.write.rec, db.lastSequence, db.write.last))
         && UpTo(LogsFrom(s.disk.logs, s.disk.manifest.logNumber, ProcessCrash),
                 if db.write.Logged? then db.write.last else db.lastSequence)
         && db.pending <= s.disk.tables.Keys
         && UpTo(TableEntries(s.disk.tables, db.pending), s.disk.manifest.lastSequence)
  }

  lemma AppendedEntries(logs: map<nat, Log>, n: nat, rec: set<Entry>, min: nat)
    requires n in logs
    ensures LogsFrom(logs[n := logs[n].(records := logs[n].records + [rec])], min, ProcessCrash)
         <= LogsFrom(logs, min, ProcessCrash) + rec
  {
    var after := logs[n := logs[n].(records := logs[n].records + [rec])];
    forall e | e in LogsFrom(after, min, ProcessCrash) ensures e in LogsFrom(logs, min, ProcessCrash) + rec {
      var m :| m in after && m >= min && e in LogEntries(after[m], ProcessCrash);
      assert e in LogEntries(logs[m], ProcessCrash) + rec;
    }
  }

  lemma WriteStepKeepsFresh(s: State, t: State, step: Step, mode: Mode)
    requires Inv(s, mode) && Fresh(s) && Next(s, t, step, mode)
    requires step.Writes()
    ensures Fresh(t)
  {
    var db, min := s.phase.db, s.disk.manifest.logNumber;
    if step.Appending? {
      AppendedEntries(s.disk.logs, db.logfile, step.rec, min);
    } else if step.Syncing? || step.Switching? {
      forall e | e in LogsFrom(t.disk.logs, min, ProcessCrash) ensures e in LogsFrom(s.disk.logs, min, ProcessCrash) {
        var m :| m in t.disk.logs && m >= min && e in LogEntries(t.disk.logs[m], ProcessCrash);
        assert e in LogEntries(s.disk.logs[m], ProcessCrash);
      }
    }
  }

  lemma TableStepKeepsFresh(s: State, t: State, step: Step, mode: Mode)
    requires Inv(s, mode) && Fresh(s) && Next(s, t, step, mode) && (step.Building? || step.DeletingTable?)
    ensures Fresh(t)
  {
    TablesAgree(s.disk.tables, t.disk.tables, s.disk.manifest.tables);
    TablesAgree(s.disk.tables, t.disk.tables, s.phase.db.pending);
  }

  lemma OutputKeepsFresh(s: State, t: State, content: set<Entry>, mode: Mode)
    requires Inv(s, mode) && Fresh(s) && WriteOutput(s, t, content)
    ensures Fresh(t)
  {
    TablesAgree(s.disk.tables, t.disk.tables, s.disk.manifest.tables);
    TablesAgree(s.disk.tables, t.disk.tables, s.phase.db.pending);
  }

  lemma BackgroundStepKeepsFresh(s: State, t: State, step: Step, mode: Mode)
    requires Inv(s, mode) && Fresh(s) && Next(s, t, step, mode)
    requires step.InBackground()
    ensures Fresh(t)
  {
    if step.Building? || step.DeletingTable? {
      TableStepKeepsFresh(s, t, step, mode);
    } else if step.Writing? {
      OutputKeepsFresh(s, t, step.content, mode);
    } else if step.DeletingLog? {
      LogsAgree(t.disk.logs, s.disk.logs, s.disk.manifest.logNumber, ProcessCrash);
    }
  }

  lemma EditKeepsFresh(s: State, t: State, step: Step, mode: Mode)
    requires Inv(s, mode) && Fresh(s) && Next(s, t, step, mode)
    requires step.Edits()
    ensures Fresh(t)
  {
    var db := s.phase.db;
    var before := TableEntries(s.disk.tables, s.disk.manifest.tables);
    forall e | e in TableEntries(t.disk.tables, t.disk.manifest.tables)
      ensures e in before || e in Imm(db) || e in TableEntries(s.disk.tables, db.pending)
    {
      var n :| n in t.disk.manifest.tables && n in t.disk.tables && e in t.disk.tables[n];
    }
  }

  lemma ReplayKeepsFresh(s: State, t: State, files: seq<set<Entry>>, ok: bool, seen: nat, mode: Mode)
    requires Inv(s, mode) && Fresh(s) && RecoverLog(s, t, files, ok, seen)
    ensures Fresh(t)
  {
    var p, q := s.phase, t.phase;
    TablesAgree(s.disk.tables, t.disk.tables, s.disk.manifest.tables);
    forall e | e in TableEntries(t.disk.tables, q.edit)
      ensures e in TableEntries(s.disk.tables, p.edit) || e in Union(files)
    {
      var n :| n in q.edit && n in t.disk.tables && e in t.disk.tables[n];
      if n in p.edit {
        assert t.disk.tables[n] == s.disk.tables[n];
      } else {
        assert t.disk.tables[n] == files[n - p.next];
      }
    }
  }

  lemma OpenedKeepsFresh(s: State, t: State, mode: Mode)
    requires Inv(s, mode) && Fresh(s) && FinishOpen(s, t, mode)
    ensures Fresh(t)
  {
    assert LogsFrom(t.disk.logs, t.disk.manifest.logNumber, ProcessCrash) == {};
  }

  lemma CreatedKeepsFresh(s: State, t: State, mode: Mode)
    requires Inv(s, mode) && Fresh(s) && CreateLog(s, t)
    ensures Fresh(t)
  {
  }

  lemma RecoveryKeepsFresh(s: State, t: State, step: Step, mode: Mode)
    requires Inv(s, mode) && Fresh(s) && Next(s, t, step, mode) && step.Recovers()
    ensures Fresh(t)
  {
    if step.Replaying? {
      ReplayKeepsFresh(s, t, step.files, step.ok, step.seen, mode);
    } else if step.CreatingLog? {
      CreatedKeepsFresh(s, t, mode);
    } else {
      OpenedKeepsFresh(s, t, mode);
    }
  }

  lemma ClosedKeepsFresh(s: State, t: State, step: Step, mode: Mode)
    requires Fresh(s) && Next(s, t, step, mode) && (step.Crashing? || step.Opening?)
    ensures Fresh(t)
  {
  }

  lemma ManageStepKeepsFresh(s: State, t: State, step: Step, mode: Mode)
    requires Fresh(s) && Next(s, t, step, mode) && step.Manages()
    ensures Fresh(t)
  {
  }

  // ---- Snapshots and the running compaction ----

  /** The running compaction spares every snapshot held, also those taken since it started. */
  ghost predicate Spared(db: DB) {
    && Compaction.SnapshotList(db.snapshots, db.lastSequence)
    && (db.compacting.Some? ==> db.compacting.value <= db.lastSequence && forall q :: q in db.snapshots ==> db.compacting.value <= q)
  }

  ghost predicate SnapshotsOk(s: State) {
    s.phase.Open? ==> Spared(s.phase.db)
  }

  /** Every other step leaves the list and the compaction alone, or ends it, and numbers only grow. */
  lemma OthersLeaveSnapshots(s: State, t: State, step: Step, mode: Mode)
    requires Fresh(s) && Next(s, t, step, mode) && !step.Manages() && s.phase.Open? && t.phase.Open?
    ensures t.phase.db.snapshots == s.phase.db.snapshots && t.phase.db.lastSequence >= s.phase.db.lastSequence
    ensures t.phase.db.compacting == s.phase.db.compacting || t.phase.db.compacting == None
  {
  }

  lemma ManageKeepsSpared(s: State, t: State, step: Step, mode: Mode)
    requires SnapshotsOk(s) && Next(s, t, step, mode) && step.Manages()
    ensures SnapshotsOk(t)
  {
    var db := s.phase.db;
    if step.TakingSnapshot? {
      Compaction.SnapshotTaken(db.snapshots, db.lastSequence);
    } else if step.ReleasingSnapshot? {
      Compaction.SnapshotReleased(db.snapshots, db.lastSequence, step.i);
      assert t.phase.db.snapshots == db.snapshots[..step.i] + db.snapshots[step.i + 1..];
      assert forall q :: q in t.phase.db.snapshots ==> q in db.snapshots;
    } else if step.StartingCompaction? {
      Compaction.SmallestIsOldest(db.snapshots, db.lastSequence);
    }
  }

  lemma NextKeepsSnapshots(s: State, t: State, step: Step, mode: Mode)
    requires Fresh(s) && SnapshotsOk(s) && Next(s, t, step, mode)
    ensures SnapshotsOk(t)
  {
    if step.Manages() {
      ManageKeepsSpared(s, t, step, mode);
    } else if s.phase.Open? && t.phase.Open? {
      OthersLeaveSnapshots(s, t, step, mode);
    }
  }

  lemma NextKeepsFresh(s: State, t: State, step: Step, mode: Mode)
    requires Inv(s, mode) && Fresh(s) && Next(s, t, step, mode)
    ensures Fresh(t)
  {
    if step.Writes() {
      WriteStepKeepsFresh(s, t, step, mode);
    } else if step.Edits() {
      EditKeepsFresh(s, t, step, mode);
    } else if step.Recovers() {
      RecoveryKeepsFresh(s, t, step, mode);
    } else if step.InBackground() {
      BackgroundStepKeepsFresh(s, t, step, mode);
    } else if step.Manages() {
      ManageStepKeepsFresh(s, t, step, mode);
    } else {
      ClosedKeepsFresh(s, t, step, mode);
    }
  }

  // ---- The promises ----

  ghost predicate Behavior(trace: seq<State>, steps: seq<Step>, mode: Mode) {
    && |trace| == |steps| + 1 && Init(trace[0])
    && forall i :: 0 <= i < |steps| ==> StepAt(trace, steps, mode, i)
  }

  ghost predicate StepAt(trace: seq<State>, steps: seq<Step>, mode: Mode, i: nat)
    requires i < |steps| && |trace| == |steps| + 1
  {
    Next(trace[i], trace[i + 1], steps[i], mode)
  }

  /** At every moment of every run the disk alone holds every acknowledged write the mode promises to keep, save what a
      compaction retired or a reopening lost; and everything in the two memtables could be read back from it. */
  lemma {:induction false} RunKeepsInv(trace: seq<State>, steps: seq<Step>, mode: Mode, i: nat)
    requires Behavior(trace, steps, mode) && i < |trace|
    ensures Inv(trace[i], mode) && Fresh(trace[i]) && SnapshotsOk(trace[i])
    ensures trace[i].acked <= Durable(trace[i].disk, mode) + trace[i].retired + trace[i].lost
    ensures trace[i].phase.Open? ==> trace[i].phase.db.mem + Imm(trace[i].phase.db) <= Durable(trace[i].disk, ProcessCrash)
  {
    if i > 0 {
      RunKeepsInv(trace, steps, mode, i - 1);
      assert StepAt(trace, steps, mode, i - 1);
      NextKeepsInv(trace[i - 1], trace[i], steps[i - 1], mode);
      NextKeepsFresh(trace[i - 1], trace[i], steps[i - 1], mode);
      NextKeepsSnapshots(trace[i - 1], trace[i], steps[i - 1], mode);
    }
    HeldIsDurable(trace[i], mode);
  }

  lemma HeldIsDurable(s: State, mode: Mode)
    requires Inv(s, mode)
    ensures s.acked <= Durable(s.disk, mode) + s.retired + s.lost
    ensures s.phase.Open? ==> s.phase.db.mem + Imm(s.phase.db) <= Durable(s.disk, ProcessCrash)
  {
    if s.phase.Open? {
      var log, min := s.disk.logs[s.phase.db.logfile], s.disk.manifest.logNumber;
      assert LogEntries(log, mode) <= LogsFrom(s.disk.logs, min, mode);
      assert LogEntries(log, ProcessCrash) <= LogsFrom(s.disk.logs, min, ProcessCrash);
    }
  }

  /** In every run a write, also one after reopening, is newer than everything that can be read. */
  lemma NewWritesAreNewest(trace: seq<State>, steps: seq<Step>, mode: Mode, i: nat, e: Entry, f: Entry)
    requires Behavior(trace, steps, mode) && i < |steps| && steps[i].Appending? && e in steps[i].rec && trace[i].phase.Open?
    requires f in Durable(trace[i].disk, ProcessCrash) + trace[i].phase.db.mem + Imm(trace[i].phase.db)
    ensures f.seqno < e.seqno
  {
    RunKeepsInv(trace, steps, mode, i);
    assert StepAt(trace, steps, mode, i);
  }

  // ---- Complete replays ----

  /** A run whose log replays are all complete. */
  ghost predicate ReplaysComplete(trace: seq<State>, steps: seq<Step>)
    requires |trace| == |steps| + 1
  {
    forall i :: 0 <= i < |steps| && steps[i].Replaying? ==> CompleteAt(trace[i], steps[i].files)
  }

  /** The files hold the whole log. */
  ghost predicate CompleteAt(s: State, files: seq<set<Entry>>) {
    s.phase.Recovering? && s.phase.todo != [] && s.phase.todo[0] in s.disk.logs && Union(files) == NextLog(s)
  }

  ghost predicate NothingMissing(s: State) {
    s.lost == {} && (s.phase.Recovering? ==> s.phase.skipped == {})
  }

  lemma OpenedMissesNothing(s: State, t: State, mode: Mode)
    requires RecoveryInv(s) && s.phase.skipped == {} && FinishOpen(s, t, mode)
    ensures Durable(s.disk, mode) <= Durable(t.disk, mode)
  {
    forall e | e in LogsFrom(s.disk.logs, s.disk.manifest.logNumber, mode)
      ensures e in TableEntries(t.disk.tables, t.disk.manifest.tables)
    {
      var n :| n in s.disk.logs && n >= s.disk.manifest.logNumber && e in LogEntries(s.disk.logs[n], mode);
      assert LogEntries(s.disk.logs[n], mode) <= LogEntries(s.disk.logs[n], ProcessCrash);
      assert e in TableEntries(s.disk.tables, s.phase.edit);
    }
  }

  lemma OthersMissNothing(s: State, t: State, step: Step, mode: Mode)
    requires NothingMissing(s) && Next(s, t, step, mode) && !step.Opened?
    requires step.Replaying? ==> CompleteAt(s, step.files)
    ensures NothingMissing(t)
  {
  }

  lemma CompleteReplayMissesNothing(s: State, t: State, step: Step, mode: Mode)
    requires Inv(s, mode) && NothingMissing(s) && Next(s, t, step, mode)
    requires step.Replaying? ==> CompleteAt(s, step.files)
    ensures NothingMissing(t)
  {
    if step.Opened? {
      OpenedMissesNothing(s, t, mode);
    } else {
      OthersMissNothing(s, t, step, mode);
    }
  }

  lemma StepLosesNothing(trace: seq<State>, steps: seq<Step>, mode: Mode, m: nat, n: nat)
    requires Behavior(trace, steps, mode) && ReplaysComplete(trace, steps) && m < n == m + 1 < |trace|
    requires NothingMissing(trace[m])
    ensures NothingMissing(trace[n])
  {
    RunKeepsInv(trace, steps, mode, m);
    assert StepAt(trace, steps, mode, m);
    CompleteReplayMissesNothing(trace[m], trace[n], steps[m], mode);
  }

  /** If log replays are complete no acknowledged write is ever lost, whatever crashes happen and whenever. */
  lemma {:induction false} NothingLost(trace: seq<State>, steps: seq<Step>, mode: Mode, i: nat)
    requires Behavior(trace, steps, mode) && ReplaysComplete(trace, steps) && i < |trace|
    ensures Inv(trace[i], mode) && NothingMissing(trace[i])
    ensures trace[i].acked <= Durable(trace[i].disk, mode) + trace[i].retired
  {
    if i > 0 {
      NothingLost(trace, steps, mode, i - 1);
      StepLosesNothing(trace, steps, mode, i - 1, i);
    }
    RunKeepsInv(trace, steps, mode, i);
  }

  /** A run that opens the database with paranoid checks only, and in which every replay reports success. */
  ghost predicate ParanoidSuccess(steps: seq<Step>) {
    forall i :: 0 <= i < |steps| ==> (steps[i].Opening? ==> steps[i].paranoid) && (steps[i].Replaying? ==> steps[i].ok)
  }

  lemma {:induction false} ParanoidThroughout(trace: seq<State>, steps: seq<Step>, mode: Mode, i: nat)
    requires Behavior(trace, steps, mode) && ParanoidSuccess(steps) && i < |trace|
    ensures trace[i].phase.Recovering? ==> trace[i].phase.paranoid
  {
    if i > 0 {
      ParanoidThroughout(trace, steps, mode, i - 1);
      assert StepAt(trace, steps, mode, i - 1);
    }
  }

  /** Then its replays are complete. */
  lemma ParanoidIsComplete(trace: seq<State>, steps: seq<Step>, mode: Mode)
    requires Behavior(trace, steps, mode) && ParanoidSuccess(steps)
    ensures ReplaysComplete(trace, steps)
  {
    forall i | 0 <= i < |steps| && steps[i].Replaying? ensures CompleteAt(trace[i], steps[i].files) {
      ParanoidThroughout(trace, steps, mode, i);
      assert StepAt(trace, steps, mode, i);
    }
  }
}
