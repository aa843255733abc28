/** That the steps of the crash protocol lead where they are meant to: writes, flushes and compactions can complete. */
module CrashProgress {
  import opened Options
  import opened Run
  import opened CrashRecovery
  import Compaction

  /** A write can always be carried through: logged, synced if it asks for it, and applied. Then it is acknowledged, and
      readers see it under the numbers it was given. */
  lemma WriteSucceeds(s: State, rec: set<Entry>, sync: bool, last: nat, mode: Mode) returns (logged: State, synced: State, t: State)
    requires Inv(s, mode) && s.phase.Open? && s.phase.db.write == Idle
    requires s.phase.db.lastSequence <= last && Within(rec, s.phase.db.lastSequence, last) && Unique(rec)
    ensures Next(s, logged, Appending(rec, sync, last), mode) && Next(synced, t, Inserting, mode)
    ensures if sync then Next(logged, synced, Syncing, mode) else synced == logged
    ensures t.phase.Open? && t.phase.db == s.phase.db.(mem := s.phase.db.mem + rec, lastSequence := last)
    ensures t.acked == if sync || mode == ProcessCrash then s.acked + rec else s.acked
  {
    var db, log := s.phase.db, s.disk.logs[s.phase.db.logfile];
    logged := s.(disk := s.disk.(logs := s.disk.logs[db.logfile := log.(records := log.records + [rec])]),
                 phase := Open(db.(write := Logged(rec, sync, false, last))));
    synced := logged;
    if sync {
      var records := logged.disk.logs[db.logfile].records;
      synced := logged.(disk := logged.disk.(logs := logged.disk.logs[db.logfile := Log(records, |records|)]),
                        phase := Open(db.(write := Logged(rec, sync, true, last))));
    }
    t := synced.(phase := Open(db.(mem := db.mem + rec, lastSequence := last)),
                 acked := if sync || mode == ProcessCrash then s.acked + rec else s.acked);
  }

  /** A full memtable can be put aside and flushed: afterwards its entries are in a table of the manifest, and no log
      before the current one is asked for any more. */
  lemma FlushSucceeds(s: State, mode: Mode) returns (switched: State, built: State, prepared: State, installed: State, t: State)
    requires Inv(s, mode) && s.phase.Open? && s.phase.db.write == Idle && s.phase.db.imm == None && s.phase.db.flush == NoFlush
    ensures Next(s, switched, Switching, mode) && Next(switched, built, Building, mode)
    ensures Next(built, prepared, Preparing, mode) && Next(prepared, installed, Installing, mode)
    ensures Next(installed, t, Dropping, mode)
    ensures t.phase.Open? && t.phase.db.mem == {} && t.phase.db.imm == None && t.phase.db.flush == NoFlush
    ensures s.phase.db.mem <= TableEntries(t.disk.tables, t.disk.manifest.tables)
    ensures t.disk.manifest.logNumber == t.phase.db.logfile == s.phase.db.next
  {
    var db := s.phase.db;
    var first, second := db.next, db.next + 1;
    switched := s.(disk := s.disk.(logs := s.disk.logs[first := Log([], 0)]),
                   phase := Open(db.(logfile := first, next := second, imm := Some(db.mem), mem := {})));
    var table := if db.mem == {} then None else Some(second);
    built := switched.(disk := if db.mem == {} then switched.disk else switched.disk.(tables := s.disk.tables[second := db.mem]),
                       phase := Open(switched.phase.db.(flush := Built(table), next := second + 1)));
    prepared := built.(phase := Open(built.phase.db.(flush := Prepared(table, first))));
    var manifest := Manifest(first, s.disk.manifest.tables + Added(table), second + 1, db.lastSequence);
    installed := prepared.(disk := built.disk.(manifest := manifest), phase := Open(built.phase.db.(flush := Installed)));
    t := installed.(phase := Open(installed.phase.db.(imm := None, flush := NoFlush)));
    forall e | e in db.mem ensures e in TableEntries(t.disk.tables, t.disk.manifest.tables) {
      assert second in t.disk.manifest.tables && e in t.disk.tables[second];
    }
  }

  /** Some tables can be compacted: one table with what the drop rule leaves of them takes their place. */
  lemma CompactionSucceeds(s: State, mode: Mode, ins: set<nat>, input: seq<Entry>, p: Compaction.Policy)
    returns (started: State, written: State, t: State)
    requires Inv(s, mode) && s.phase.Open? && s.phase.db.flush == NoFlush && s.phase.db.compacting == None
    requires p.smallestSnapshot == Compaction.SmallestSnapshot(s.phase.db.snapshots, s.phase.db.lastSequence)
    requires ins <= s.disk.manifest.tables && Sorted(input) && Entries(input) == TableEntries(s.disk.tables, ins)
    requires Compaction.Consistent(input, p, TableEntries(s.disk.tables, s.disk.manifest.tables - ins))
    ensures var n, kept := s.phase.db.next, Entries(Compaction.Survivors(input, p, |input|));
            && Next(s, started, StartingCompaction, mode) && Next(started, written, Writing(kept), mode)
            && Next(written, t, Compacting(ins, {n}), mode)
            && t.disk.manifest.tables == s.disk.manifest.tables - ins + {n} && n in t.disk.tables && t.disk.tables[n] == kept
            && t.phase.Open? && t.phase.db.compacting == None
  {
    var n, kept := s.phase.db.next, Entries(Compaction.Survivors(input, p, |input|));
    SurvivorsAmong(s, ins, input, p);
    started, written := OutputSucceeds(s, mode, kept, p.smallestSnapshot);
    NextIsUnused(s, mode);
    SameTables(s.disk.tables, n, kept, ins);
    SameTables(s.disk.tables, n, kept, s.disk.manifest.tables - ins);
    OneTable(s.disk.tables, n, kept);
    t := Installs(written, ins, n, input, p);
  }

  lemma OutputSucceeds(s: State, mode: Mode, kept: set<Entry>, oldest: nat) returns (started: State, written: State)
    requires s.phase.Open? && s.phase.db.flush == NoFlush && s.phase.db.compacting == None
    requires oldest == Compaction.SmallestSnapshot(s.phase.db.snapshots, s.phase.db.lastSequence)
    requires kept <= TableEntries(s.disk.tables, s.disk.manifest.tables)
    ensures Next(s, started, StartingCompaction, mode) && Next(started, written, Writing(kept), mode)
    ensures written.disk == s.disk.(tables := s.disk.tables[s.phase.db.next := kept]) && written.phase.Open?
    ensures written.phase.db.flush == NoFlush && written.phase.db.compacting == Some(oldest) && s.phase.db.next in written.phase.db.pending
  {
    var db := s.phase.db;
    started := s.(phase := Open(db.(compacting := Some(oldest))));
    written := started.(disk := s.disk.(tables := s.disk.tables[db.next := kept]),
                        phase := Open(started.phase.db.(pending := db.pending + {db.next}, next := db.next + 1)));
  }

  lemma NextIsUnused(s: State, mode: Mode)
    requires Inv(s, mode) && s.phase.Open?
    ensures s.phase.db.next !in s.disk.manifest.tables
  {
  }

  lemma SurvivorsAmong(s: State, ins: set<nat>, input: seq<Entry>, p: Compaction.Policy)
    requires ins <= s.disk.manifest.tables && Entries(input) == TableEntries(s.disk.tables, ins)
    ensures Entries(Compaction.Survivors(input, p, |input|)) <= TableEntries(s.disk.tables, s.disk.manifest.tables)
  {
    Compaction.SurvivorsAre(input, p, |input|);
    forall e | e in Compaction.Survivors(input, p, |input|) ensures e in TableEntries(s.disk.tables, s.disk.manifest.tables) {
      assert e in Entries(input);
    }
  }

  lemma Installs(s: State, ins: set<nat>, n: nat, input: seq<Entry>, p: Compaction.Policy) returns (t: State)
    requires s.phase.Open? && s.phase.db.flush == NoFlush && s.phase.db.compacting == Some(p.smallestSnapshot) && n in s.phase.db.pending
    requires ins <= s.disk.manifest.tables && Sorted(input) && Entries(input) == TableEntries(s.disk.tables, ins)
    requires Compaction.Consistent(input, p, TableEntries(s.disk.tables, s.disk.manifest.tables - ins))
    requires TableEntries(s.disk.tables, {n}) == Entries(Compaction.Survivors(input, p, |input|))
    ensures InstallCompaction(s, t, ins, {n})
    ensures t.disk.manifest.tables == s.disk.manifest.tables - ins + {n} && t.disk.tables == s.disk.tables
    ensures t.phase.Open? && t.phase.db.compacting == None
  {
    var db, live := s.phase.db, s.disk.manifest.tables - ins + {n};
    var m := s.disk.manifest.(tables := live, nextFile := db.next, lastSequence := db.lastSequence);
    assert Merged(TableEntries(s.disk.tables, ins), TableEntries(s.disk.tables, s.disk.manifest.tables - ins),
                  TableEntries(s.disk.tables, {n}), p.smallestSnapshot);
    t := s.(disk := s.disk.(manifest := m), phase := Open(db.(pending := {}, compacting := None)),
            retired := s.retired + (TableEntries(s.disk.tables, s.disk.manifest.tables) - TableEntries(s.disk.tables, live)));
  }

  lemma OneTable(tables: map<nat, set<Entry>>, n: nat, content: set<Entry>)
    ensures TableEntries(tables[n := content], {n}) == content
  {
    forall e | e in content ensures e in TableEntries(tables[n := content], {n}) {
      assert n in {n} && e in tables[n := content][n];
    }
  }

  lemma SameTables(tables: map<nat, set<Entry>>, n: nat, content: set<Entry>, live: set<nat>)
    requires n !in live
    ensures TableEntries(tables[n := content], live) == TableEntries(tables, live)
  {
    var after := tables[n := content];
    forall e | e in TableEntries(tables, live) ensures e in TableEntries(after, live) {
      var k :| k in live && k in tables && e in tables[k];
      assert k in after && e in after[k];
    }
  }

  // ---- What may go wrong at any time ----

  /** A crash can happen in any state. When the process dies the disk stays as it is; when power fails a log may be cut
      anywhere beyond its synced records. */
  lemma ProcessMayDie(s: State) returns (t: State)
    ensures Next(s, t, Crashing(s.disk.logs), ProcessCrash) && t.phase == Closed && t.disk == s.disk
  {
    t := s.(phase := Closed);
  }

  lemma PowerMayFail(s: State, n: nat, k: nat) returns (logs: map<nat, Log>, t: State)
    requires n in s.disk.logs && s.disk.logs[n].synced <= k <= |s.disk.logs[n].records|
    ensures Next(s, t, Crashing(logs), PowerFailure) && t.phase == Closed && t.disk == s.disk.(logs := logs)
    ensures logs == s.disk.logs[n := s.disk.logs[n].(records := s.disk.logs[n].records[..k])]
  {
    var log := s.disk.logs[n];
    logs := s.disk.logs[n := log.(records := log.records[..k])];
    t := s.(disk := s.disk.(logs := logs), phase := Closed);
  }

  /** A write may fail: before anything of it is in the log, or, once it is logged and what is to be synced is, after any
      part of it went into the memtable. Its numbers are used up either way. */
  lemma AppendMayFail(s: State, last: nat, mode: Mode) returns (t: State)
    requires s.phase.Open? && s.phase.db.write == Idle && s.phase.db.lastSequence <= last
    ensures Next(s, t, FailingAppend(last), mode) && t == s.(phase := Open(s.phase.db.(lastSequence := last)))
  {
    t := s.(phase := Open(s.phase.db.(lastSequence := last)));
  }

  lemma InsertionMayFail(s: State, part: set<Entry>, mode: Mode) returns (t: State)
    requires s.phase.Open? && s.phase.db.write.Logged? && part <= s.phase.db.write.rec
    requires part == {} || !s.phase.db.write.sync || s.phase.db.write.synced
    ensures Next(s, t, GivingUp(part), mode) && t.acked == s.acked
    ensures t.phase == Open(s.phase.db.(mem := s.phase.db.mem + part, write := Idle, lastSequence := s.phase.db.write.last))
  {
    var db := s.phase.db;
    t := s.(phase := Open(db.(mem := db.mem + part, write := Idle, lastSequence := db.write.last)));
  }

  /** A flush may be given up until its edit is installed, and a compaction until its own is. */
  lemma FlushMayFail(s: State, mode: Mode) returns (t: State)
    requires s.phase.Open? && (s.phase.db.flush.Built? || s.phase.db.flush.Prepared?)
    ensures Next(s, t, Abandoning, mode) && t == s.(phase := Open(s.phase.db.(flush := NoFlush)))
  {
    t := s.(phase := Open(s.phase.db.(flush := NoFlush)));
  }

  lemma CompactionMayFail(s: State, mode: Mode) returns (t: State)
    requires s.phase.Open? && s.phase.db.flush == NoFlush && s.phase.db.compacting.Some?
    ensures Next(s, t, AbandoningCompaction, mode) && t == s.(phase := Open(s.phase.db.(compacting := None, pending := {})))
  {
    t := s.(phase := Open(s.phase.db.(compacting := None, pending := {})));
  }

  /** Between flushes, logs before the manifest's and tables that neither it nor a compaction knows go. */
  lemma ObsoleteLogGoes(s: State, n: nat, mode: Mode) returns (t: State)
    requires s.phase.Open? && s.phase.db.flush == NoFlush && n < s.disk.manifest.logNumber
    ensures Next(s, t, DeletingLog(n), mode) && t == s.(disk := s.disk.(logs := s.disk.logs - {n}))
  {
    t := s.(disk := s.disk.(logs := s.disk.logs - {n}));
  }

  lemma ObsoleteTableGoes(s: State, n: nat, mode: Mode) returns (t: State)
    requires s.phase.Open? && s.phase.db.flush == NoFlush && n !in s.disk.manifest.tables && n !in s.phase.db.pending
    ensures Next(s, t, DeletingTable(n), mode) && t == s.(disk := s.disk.(tables := s.disk.tables - {n}))
  {
    t := s.(disk := s.disk.(tables := s.disk.tables - {n}));
  }

  // ---- Reopening ----

  ghost predicate Path(trace: seq<State>, steps: seq<Step>, mode: Mode, s: State, t: State) {
    && |trace| == |steps| + 1 && trace[0] == s && trace[|steps|] == t
    && forall i :: 0 <= i < |steps| ==> StepAt(trace, steps, mode, i)
  }

  lemma OneStepMore(trace: seq<State>, steps: seq<Step>, mode: Mode, s: State, t: State, step: Step, u: State)
    requires Path(trace, steps, mode, s, t) && Next(t, u, step, mode)
    ensures Path(trace + [u], steps + [step], mode, s, u)
  {
    var more, all := trace + [u], steps + [step];
    forall i | 0 <= i < |all| ensures StepAt(more, all, mode, i) {
      assert i < |steps| ==> StepAt(trace, steps, mode, i);
    }
  }

  lemma {:induction false} NewestOf(S: set<Entry>, least: nat) returns (seen: nat)
    ensures seen >= least && UpTo(S, seen)
    decreases S
  {
    if S == {} {
      seen := least;
    } else {
      var e :| e in S;
      seen := NewestOf(S - {e}, if e.seqno > least then e.seqno else least);
    }
  }

  /** A log can be replayed whole. */
  lemma ReplaySucceeds(s: State, mode: Mode) returns (step: Step, t: State)
    requires s.phase.Recovering? && s.phase.todo != [] && s.phase.todo[0] in s.disk.logs
    ensures Next(s, t, step, mode) && t.phase.Recovering? && t.disk.logs == s.disk.logs
    ensures t.phase.todo == s.phase.todo[1..] && t.phase.ok && t.phase.newLog == s.phase.newLog && t.phase.skipped == s.phase.skipped
  {
    var p, log := s.phase, NextLog(s);
    var files := [log];
    var seen := NewestOf(log, p.maxSequence);
    assert Union(files) == log by {
      forall e | e in log ensures e in Union(files) { assert e in files[0]; }
    }
    step := Replaying(files, true, seen);
    t := s.(disk := s.disk.(tables := AddFiles(s.disk.tables, p.next, files)),
            phase := p.(todo := p.todo[1..], edit := p.edit + Numbers(p.next, |files|), ok := true,
                        next := Max(p.next + |files|, p.todo[0] + 1), maxSequence := seen,
                        skipped := p.skipped + (log - Union(files))));
  }

  lemma {:induction false} ReplaysSucceed(s: State, mode: Mode) returns (trace: seq<State>, steps: seq<Step>, t: State)
    requires s.phase.Recovering? && s.phase.ok && s.phase.newLog == None && forall n :: n in s.phase.todo ==> n in s.disk.logs
    ensures Path(trace, steps, mode, s, t) && t.phase.Recovering? && t.phase.todo == [] && t.phase.ok && t.phase.newLog == None
    ensures t.phase.skipped == s.phase.skipped
    decreases |s.phase.todo|
  {
    if s.phase.todo == [] {
      trace, steps, t := [s], [], s;
    } else {
      assert s.phase.todo[0] in s.phase.todo;
      var step, u := ReplaySucceeds(s, mode);
      var rest, others;
      rest, others, t := ReplaysSucceed(u, mode);
      trace, steps := [s] + rest, [step] + others;
      forall i | 0 <= i < |steps| ensures StepAt(trace, steps, mode, i) {
        assert i > 0 ==> StepAt(rest, others, mode, i - 1);
      }
    }
  }

  lemma {:induction false} Ascending(S: set<nat>) returns (list: seq<nat>)
    ensures (forall i, j :: 0 <= i < j < |list| ==> list[i] < list[j]) && forall n :: n in list <==> n in S
    decreases S
  {
    if S == {} {
      list := [];
    } else {
      var m := Greatest(S);
      var front := Ascending(S - {m});
      list := front + [m];
      forall i | 0 <= i < |front| ensures front[i] < m {
        assert front[i] in front;
      }
    }
  }

  lemma {:induction false} Greatest(S: set<nat>) returns (m: nat)
    requires S != {}
    ensures m in S && forall n :: n in S ==> n <= m
    decreases S
  {
    var x :| x in S;
    m := x;
    if S != {x} {
      var other := Greatest(S - {x});
      m := if other > x then other else x;
      forall n | n in S ensures n <= m {
        assert n == x || n in S - {x};
      }
    }
  }

  /** A closed database can always be opened, replaying every log whole. */
  lemma OpenSucceeds(s: State, mode: Mode, paranoid: bool) returns (trace: seq<State>, steps: seq<Step>, t: State)
    requires s.phase == Closed
    ensures Path(trace, steps, mode, s, t) && t.phase.Open? && |trace| > 2 && |steps| > 2
    ensures var last := trace[|trace| - 2]; last.phase.Recovering? && last.phase.skipped == {}
  {
    var todo := Ascending(set n | n in s.disk.logs && n >= s.disk.manifest.logNumber);
    var m := s.disk.manifest;
    var opening := s.(phase := Recovering(paranoid, todo, {}, true, Max(m.nextFile, m.logNumber + 1), 0, None, {}));
    var first := Opening(todo, paranoid);
    assert Next(s, opening, first, mode);
    var rest, others, replayed := ReplaysSucceed(opening, mode);
    trace, steps := [s] + rest, [first] + others;
    forall i | 0 <= i < |steps| ensures StepAt(trace, steps, mode, i) {
      assert i > 0 ==> StepAt(rest, others, mode, i - 1);
    }
    var created := Creates(replayed, mode);
    OneStepMore(trace, steps, mode, s, replayed, CreatingLog, created);
    t := Finishes(created, mode);
    OneStepMore(trace + [created], steps + [CreatingLog], mode, s, created, Opened, t);
    trace, steps := trace + [created] + [t], steps + [CreatingLog] + [Opened];
  }

  lemma Creates(s: State, mode: Mode) returns (t: State)
    requires s.phase.Recovering? && s.phase.todo == [] && s.phase.ok && s.phase.newLog == None
    ensures Next(s, t, CreatingLog, mode) && t.phase.Recovering? && t.phase.newLog.Some? && t.phase.skipped == s.phase.skipped
  {
    var p := s.phase;
    t := s.(disk := s.disk.(logs := s.disk.logs[p.next := Log([], 0)]), phase := p.(next := p.next + 1, newLog := Some(p.next)));
  }

  lemma Finishes(s: State, mode: Mode) returns (t: State)
    requires s.phase.Recovering? && s.phase.newLog.Some?
    ensures Next(s, t, Opened, mode) && t.phase.Open?
  {
    var p, d := s.phase, s.disk;
    var last := Max(d.manifest.lastSequence, p.maxSequence);
    var disk := d.(manifest := Manifest(p.newLog.value, d.manifest.tables + p.edit, p.next, last));
    t := s.(disk := disk, phase := Open(NewDB(p.newLog.value, p.next, last)),
            lost := s.lost + (Durable(d, mode) - Durable(disk, mode)));
  }
}
