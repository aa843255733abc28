/** What reopening the database may lose: exactly when, over the closed disk and the logs that replay completely. */
module Reopening {
  import opened Options
  import opened Run
  import opened CrashRecovery

  /** The log is one that reopening replays. */
  predicate Wanted(d: Disk, n: nat) {
    n in d.logs && n >= d.manifest.logNumber
  }

  predicate Newest(d: Disk, n: nat) {
    Wanted(d, n) && forall m :: m in d.logs ==> m <= n
  }

  /** A log sure to be replayed whole: one of those given, or with paranoid checks the newest, whose status decides
      whether the database opens. */
  predicate Whole(d: Disk, n: nat, paranoid: bool, complete: set<nat>) {
    Wanted(d, n) && (n in complete || (paranoid && Newest(d, n)))
  }

  /** What is sure to be in tables after reopening. */
  ghost function Kept(d: Disk, paranoid: bool, complete: set<nat>): set<Entry> {
    TableEntries(d.tables, d.manifest.tables) + WholeEntries(d, paranoid, complete)
  }

  ghost function WholeEntries(d: Disk, paranoid: bool, complete: set<nat>): set<Entry> {
    set n, e | n in d.logs && Whole(d, n, paranoid, complete) && e in LogEntries(d.logs[n], ProcessCrash) :: e
  }

  /** The durable entries of every log that may be replayed in part are elsewhere too. */
  ghost predicate Covered(d: Disk, mode: Mode, paranoid: bool, complete: set<nat>) {
    forall n :: Wanted(d, n) && !Whole(d, n, paranoid, complete) ==> LogEntries(d.logs[n], mode) <= Kept(d, paranoid, complete)
  }

  // ---- Reopenings ----

  ghost predicate ReopenStep(s: State, step: Step, paranoid: bool, complete: set<nat>) {
    match step
    case Opening(_, checks) => checks == paranoid
    case Replaying(files, _, _) =>
      s.phase.Recovering? && (s.phase.todo != [] && s.phase.todo[0] in complete ==> CompleteAt(s, files))
    case CreatingLog => true
    case Opened => true
    case _ => false
  }

  ghost predicate ReopenAt(trace: seq<State>, steps: seq<Step>, mode: Mode, paranoid: bool, complete: set<nat>, i: nat)
    requires i < |steps| && |trace| == |steps| + 1
  {
    Next(trace[i], trace[i + 1], steps[i], mode) && ReopenStep(trace[i], steps[i], paranoid, complete)
  }

  ghost predicate ReopenSteps(trace: seq<State>, steps: seq<Step>, mode: Mode, paranoid: bool, complete: set<nat>) {
    && |trace| == |steps| + 1
    && forall i :: 0 <= i < |steps| ==> ReopenAt(trace, steps, mode, paranoid, complete, i)
  }

  /** A reopening of the closed database s, in which the logs given replay completely, the others in any way. */
  ghost predicate Reopens(s: State, trace: seq<State>, steps: seq<Step>, mode: Mode, paranoid: bool, complete: set<nat>) {
    && ReopenSteps(trace, steps, mode, paranoid, complete)
    && s.phase == Closed && trace[0] == s && trace[|steps|].phase.Open?
  }

  // ---- What every reopening keeps ----

  /** While reopening from disk d: what was in the manifest's tables still is, logs are as they were, and those whole
      logs that have been replayed are in the tables of the edit. */
  ghost predicate Progress(d: Disk, s: State, paranoid: bool, complete: set<nat>) {
    && s.disk.manifest == d.manifest
    && TableEntries(s.disk.tables, d.manifest.tables) == TableEntries(d.tables, d.manifest.tables)
    && d.logs.Keys <= s.disk.logs.Keys && (forall n :: n in d.logs ==> s.disk.logs[n] == d.logs[n])
    && match s.phase
       case Closed => s.disk == d
       case Open(_) => false
       case Recovering(checks, todo, edit, ok, _, _, newLog, _) =>
         && checks == paranoid && Ascending(todo) && (newLog.Some? ==> todo == [] && ok)
         && (newLog == None ==> s.disk.logs == d.logs)
         && (forall n :: n in todo ==> Wanted(d, n))
         && (forall n, m :: Wanted(d, n) && n !in todo && m in todo ==> n < m)
         && (forall n :: Wanted(d, n) && n !in todo && (n in complete || (paranoid && ok && Newest(d, n)))
               ==> LogEntries(d.logs[n], ProcessCrash) <= TableEntries(s.disk.tables, edit))
  }

  predicate Ascending(todo: seq<nat>) {
    forall i, j :: 0 <= i < j < |todo| ==> todo[i] < todo[j]
  }

  lemma RestOfTodo(todo: seq<nat>)
    requires todo != [] && Ascending(todo)
    ensures Ascending(todo[1..])
    ensures forall n :: n in todo[1..] ==> n in todo && n > todo[0]
    ensures forall n :: n in todo ==> n == todo[0] || n in todo[1..]
  {
    forall n | n in todo[1..] ensures n in todo && n > todo[0] {
      var i :| 0 <= i < |todo[1..]| && todo[1..][i] == n;
      assert todo[i + 1] == n;
    }
  }

  lemma ReplayKeepsProgress(
    d: Disk, s: State, t: State, files: seq<set<Entry>>, ok: bool, seen: nat, mode: Mode, paranoid: bool, complete: set<nat>)
    requires Inv(s, mode) && Progress(d, s, paranoid, complete) && RecoverLog(s, t, files, ok, seen)
    requires s.phase.todo[0] in complete ==> CompleteAt(s, files)
    ensures Progress(d, t, paranoid, complete)
  {
    var p, q := s.phase, t.phase;
    ReplayedTables(s, t, files, ok, seen);
    RestOfTodo(p.todo);
    assert Wanted(d, p.todo[0]);
    forall n | Wanted(d, n) && n !in q.todo && (n in complete || (paranoid && ok && Newest(d, n)))
      ensures LogEntries(d.logs[n], ProcessCrash) <= TableEntries(t.disk.tables, q.edit)
    {
      assert p.todo[0] in p.todo;
    }
  }

  lemma StepKeepsProgress(d: Disk, s: State, t: State, step: Step, mode: Mode, paranoid: bool, complete: set<nat>)
    requires Inv(s, mode) && Progress(d, s, paranoid, complete)
    requires Next(s, t, step, mode) && ReopenStep(s, step, paranoid, complete) && !step.Opened?
    ensures Progress(d, t, paranoid, complete)
  {
    if step.Replaying? {
      ReplayKeepsProgress(d, s, t, step.files, step.ok, step.seen, mode, paranoid, complete);
    }
  }

  lemma OpenedKeeps(d: Disk, s: State, t: State, mode: Mode, paranoid: bool, complete: set<nat>)
    requires Inv(s, mode) && Progress(d, s, paranoid, complete) && FinishOpen(s, t, mode)
    ensures Kept(d, paranoid, complete) <= Durable(t.disk, mode)
  {
    var edit := s.phase.edit;
    forall e | e in Kept(d, paranoid, complete) ensures e in TableEntries(t.disk.tables, t.disk.manifest.tables) {
      if e in TableEntries(d.tables, d.manifest.tables) {
        assert e in TableEntries(s.disk.tables, d.manifest.tables);
      } else {
        var n :| n in d.logs && Whole(d, n, paranoid, complete) && e in LogEntries(d.logs[n], ProcessCrash);
        assert e in TableEntries(s.disk.tables, edit);
      }
    }
  }

  /** One step of a reopening; the last one opens the database. */
  lemma Advance(d: Disk, s: State, t: State, step: Step, mode: Mode, paranoid: bool, complete: set<nat>)
    requires Inv(s, mode) && Progress(d, s, paranoid, complete)
    requires Next(s, t, step, mode) && ReopenStep(s, step, paranoid, complete)
    ensures Inv(t, mode)
    ensures if t.phase.Open? then Kept(d, paranoid, complete) <= Durable(t.disk, mode) else Progress(d, t, paranoid, complete)
  {
    NextKeepsInv(s, t, step, mode);
    if step.Opened? {
      OpenedKeeps(d, s, t, mode, paranoid, complete);
    } else {
      StepKeepsProgress(d, s, t, step, mode, paranoid, complete);
    }
  }

  lemma OpenIsLast(s: State, t: State, step: Step, mode: Mode, paranoid: bool, complete: set<nat>)
    requires Next(s, t, step, mode) && ReopenStep(s, step, paranoid, complete)
    ensures !s.phase.Open?
  {
  }

  lemma {:induction false} ReopeningProgress(
    s: State, trace: seq<State>, steps: seq<Step>, mode: Mode, paranoid: bool, complete: set<nat>, i: nat)
    requires Inv(s, mode) && s.phase == Closed && ReopenSteps(trace, steps, mode, paranoid, complete) && trace[0] == s
    requires i < |trace|
    ensures Inv(trace[i], mode)
    ensures if trace[i].phase.Open? then Kept(s.disk, paranoid, complete) <= Durable(trace[i].disk, mode)
            else Progress(s.disk, trace[i], paranoid, complete)
  {
    if i > 0 {
      ReopeningProgress(s, trace, steps, mode, paranoid, complete, i - 1);
      assert ReopenAt(trace, steps, mode, paranoid, complete, i - 1);
      OpenIsLast(trace[i - 1], trace[i], steps[i - 1], mode, paranoid, complete);
      Advance(s.disk, trace[i - 1], trace[i], steps[i - 1], mode, paranoid, complete);
    }
  }

  // ---- The worst reopening ----

  lemma {:induction false} SomeBound(S: set<Entry>, least: nat) returns (seen: nat)
    ensures least <= seen && UpTo(S, seen)
  {
    if S == {} {
      seen := least;
    } else {
      var e :| e in S;
      seen := SomeBound(S - {e}, Max(least, e.seqno));
      assert forall f :: f in S ==> f == e || f in S - {e};
    }
  }

  lemma Prepend(
    s: State, step: Step, trace: seq<State>, steps: seq<Step>, mode: Mode, paranoid: bool, complete: set<nat>)
    requires ReopenSteps(trace, steps, mode, paranoid, complete)
    requires Next(s, trace[0], step, mode) && ReopenStep(s, step, paranoid, complete)
    ensures ReopenSteps([s] + trace, [step] + steps, mode, paranoid, complete)
  {
    var longer, more := [s] + trace, [step] + steps;
    forall i | 0 <= i < |more| ensures ReopenAt(longer, more, mode, paranoid, complete, i) {
      if i > 0 {
        assert ReopenAt(trace, steps, mode, paranoid, complete, i - 1);
        assert longer[i] == trace[i - 1] && longer[i + 1] == trace[i] && more[i] == steps[i - 1];
      }
    }
  }

  /** Nothing but what must be has got into the tables of the edit. */
  ghost predicate Least(d: Disk, s: State, paranoid: bool, complete: set<nat>) {
    && s.phase.Recovering? && s.phase.newLog == None && (s.phase.todo == [] ==> s.phase.ok)
    && TableEntries(s.disk.tables, s.phase.edit) <= WholeEntries(d, paranoid, complete)
  }

  lemma LastIsNewest(d: Disk, s: State, paranoid: bool, complete: set<nat>)
    requires Progress(d, s, paranoid, complete) && s.phase.Recovering? && |s.phase.todo| == 1
    ensures Newest(d, s.phase.todo[0])
  {
    var todo := s.phase.todo;
    assert todo[0] in todo;
    forall m | m in d.logs ensures m <= todo[0] {
      assert Wanted(d, m) ==> m in todo || m < todo[0];
    }
  }

  /** The step that replays the next log into the given files. */
  lemma ReplaysInto(s: State, files: seq<set<Entry>>, ok: bool, mode: Mode) returns (step: Step, t: State)
    requires s.phase.Recovering? && s.phase.todo != [] && s.phase.todo[0] in s.disk.logs
    requires Union(files) <= NextLog(s) && (ok && s.phase.paranoid ==> Union(files) == NextLog(s))
    ensures step.Replaying? && step.files == files && step.ok == ok
    ensures Next(s, t, step, mode) && RecoverLog(s, t, files, ok, step.seen)
  {
    var p := s.phase;
    var seen := SomeBound(Union(files), p.maxSequence);
    step := Replaying(files, ok, seen);
    t := s.(disk := s.disk.(tables := AddFiles(s.disk.tables, p.next, files)),
            phase := p.(todo := p.todo[1..], edit := p.edit + Numbers(p.next, |files|), ok := ok,
                        next := Max(p.next + |files|, p.todo[0] + 1), maxSequence := seen,
                        skipped := p.skipped + (NextLog(s) - Union(files))));
    assert RecoverLog(s, t, files, ok, seen);
  }

  lemma EditHolds(s: State, t: State, files: seq<set<Entry>>, ok: bool, seen: nat)
    requires RecoveryInv(s) && RecoverLog(s, t, files, ok, seen)
    ensures TableEntries(t.disk.tables, t.phase.edit) <= TableEntries(s.disk.tables, s.phase.edit) + Union(files)
  {
    var p := s.phase;
    forall e | e in TableEntries(t.disk.tables, t.phase.edit)
      ensures e in TableEntries(s.disk.tables, p.edit) + Union(files)
    {
      var m :| m in t.phase.edit && m in t.disk.tables && e in t.disk.tables[m];
      if m in p.edit {
        assert t.disk.tables[m] == s.disk.tables[m];
      } else {
        assert t.disk.tables[m] == files[m - p.next];
      }
    }
  }

  /** Replays the next log whole if it must be, and else leaves everything out. */
  lemma WorstReplay(d: Disk, s: State, mode: Mode, paranoid: bool, complete: set<nat>) returns (step: Step, t: State)
    requires Inv(s, mode) && Progress(d, s, paranoid, complete) && Least(d, s, paranoid, complete) && s.phase.todo != []
    ensures Next(s, t, step, mode) && ReopenStep(s, step, paranoid, complete) && step.Replaying?
    ensures Least(d, t, paranoid, complete) && t.phase.todo == s.phase.todo[1..]
  {
    var todo, log := s.phase.todo, NextLog(s);
    assert todo[0] in todo;
    var whole := Whole(d, todo[0], paranoid, complete);
    var files := if whole then [log] else [];
    assert Union(files) == if whole then log else {};
    step, t := ReplaysInto(s, files, whole || !paranoid, mode);
    EditHolds(s, t, files, whole || !paranoid, step.seen);
    assert Union(files) <= WholeEntries(d, paranoid, complete);
    if |todo| == 1 {
      LastIsNewest(d, s, paranoid, complete);
    }
  }

  lemma WorstStep(d: Disk, s: State, mode: Mode, paranoid: bool, complete: set<nat>) returns (step: Step, t: State)
    requires Inv(s, mode) && Progress(d, s, paranoid, complete) && Least(d, s, paranoid, complete) && s.phase.todo != []
    ensures Next(s, t, step, mode) && ReopenStep(s, step, paranoid, complete)
    ensures Inv(t, mode) && Progress(d, t, paranoid, complete)
    ensures Least(d, t, paranoid, complete) && t.phase.todo == s.phase.todo[1..]
  {
    step, t := WorstReplay(d, s, mode, paranoid, complete);
    assert RecoverLog(s, t, step.files, step.ok, step.seen);
    ReplayKeepsInv(s, t, step.files, step.ok, step.seen, mode);
    ReplayKeepsProgress(d, s, t, step.files, step.ok, step.seen, mode, paranoid, complete);
  }

  /** Opens, when all logs are replayed. */
  lemma WorstOpen(d: Disk, s: State, mode: Mode, paranoid: bool, complete: set<nat>) returns (u: State, t: State)
    requires Inv(s, mode) && Progress(d, s, paranoid, complete) && Least(d, s, paranoid, complete) && s.phase.todo == []
    ensures Next(s, u, CreatingLog, mode) && Next(u, t, Opened, mode) && t.phase.Open?
    ensures Durable(t.disk, mode) <= Kept(d, paranoid, complete)
  {
    var p := s.phase;
    u := s.(disk := s.disk.(logs := s.disk.logs[p.next := Log([], 0)]), phase := p.(next := p.next + 1, newLog := Some(p.next)));
    CreateLogKeepsInv(s, u, mode);
    var last := Max(d.manifest.lastSequence, p.maxSequence);
    var disk := u.disk.(manifest := Manifest(p.next, d.manifest.tables + p.edit, p.next + 1, last));
    t := u.(disk := disk, phase := Open(NewDB(p.next, p.next + 1, last)),
            lost := u.lost + (Durable(u.disk, mode) - Durable(disk, mode)));
    assert LogsFrom(disk.logs, p.next, mode) == {};
    forall e | e in TableEntries(disk.tables, disk.manifest.tables) ensures e in Kept(d, paranoid, complete) {
      var m :| m in disk.manifest.tables && m in disk.tables && e in disk.tables[m];
      if m in p.edit {
        assert e in TableEntries(s.disk.tables, p.edit);
      } else {
        assert e in TableEntries(s.disk.tables, d.manifest.tables);
      }
    }
  }

  lemma WorstEnd(d: Disk, s: State, mode: Mode, paranoid: bool, complete: set<nat>) returns (trace: seq<State>, steps: seq<Step>)
    requires Inv(s, mode) && Progress(d, s, paranoid, complete) && Least(d, s, paranoid, complete) && s.phase.todo == []
    ensures ReopenSteps(trace, steps, mode, paranoid, complete) && trace[0] == s && trace[|steps|].phase.Open?
    ensures Durable(trace[|steps|].disk, mode) <= Kept(d, paranoid, complete)
  {
    var u, t := WorstOpen(d, s, mode, paranoid, complete);
    trace, steps := [s, u, t], [CreatingLog, Opened];
  }

  lemma {:induction false} WorstRest(d: Disk, s: State, mode: Mode, paranoid: bool, complete: set<nat>)
    returns (trace: seq<State>, steps: seq<Step>)
    requires Inv(s, mode) && Progress(d, s, paranoid, complete) && Least(d, s, paranoid, complete)
    ensures ReopenSteps(trace, steps, mode, paranoid, complete) && trace[0] == s && trace[|steps|].phase.Open?
    ensures Durable(trace[|steps|].disk, mode) <= Kept(d, paranoid, complete)
    decreases |s.phase.todo|
  {
    if s.phase.todo == [] {
      trace, steps := WorstEnd(d, s, mode, paranoid, complete);
    } else {
      var step, t := WorstStep(d, s, mode, paranoid, complete);
      trace, steps := WorstRest(d, t, mode, paranoid, complete);
      Prepend(s, step, trace, steps, mode, paranoid, complete);
      trace, steps := [s] + trace, [step] + steps;
    }
  }

  lemma {:induction false} SortedList(S: set<nat>) returns (todo: seq<nat>)
    ensures Ascending(todo) && forall n :: n in todo <==> n in S
  {
    if S == {} {
      todo := [];
    } else {
      var most := Greatest(S);
      var rest := SortedList(S - {most});
      assert forall i :: 0 <= i < |rest| ==> rest[i] in S - {most};
      todo := rest + [most];
    }
  }

  lemma {:induction false} Greatest(S: set<nat>) returns (most: nat)
    requires S != {}
    ensures most in S && forall n :: n in S ==> n <= most
  {
    var n :| n in S;
    if S == {n} {
      most := n;
    } else {
      var other := Greatest(S - {n});
      most := Max(n, other);
      assert forall m :: m in S ==> m == n || m in S - {n};
    }
  }

  /** A reopening after which nothing is on disk but what every reopening keeps. */
  lemma WorstReopening(s: State, mode: Mode, paranoid: bool, complete: set<nat>) returns (trace: seq<State>, steps: seq<Step>)
    requires Inv(s, mode) && s.phase == Closed
    ensures Reopens(s, trace, steps, mode, paranoid, complete)
    ensures Durable(trace[|steps|].disk, mode) <= Kept(s.disk, paranoid, complete)
  {
    var d := s.disk;
    var todo := SortedList(set n | n in d.logs && Wanted(d, n));
    var t := s.(phase := Recovering(paranoid, todo, {}, true, Max(d.manifest.nextFile, d.manifest.logNumber + 1), 0, None, {}));
    var step := Opening(todo, paranoid);
    assert Next(s, t, step, mode);
    NextKeepsInv(s, t, step, mode);
    assert TableEntries(t.disk.tables, t.phase.edit) == {};
    var rest, more := WorstRest(d, t, mode, paranoid, complete);
    Prepend(s, step, rest, more, mode, paranoid, complete);
    trace, steps := [s] + rest, [step] + more;
  }

  /** Every reopening loses nothing if and only if, for every log that may be replayed in part, its durable entries are
      in the manifest's tables or in logs replayed whole. */
  lemma ReopeningLosesNothing(s: State, mode: Mode, paranoid: bool, complete: set<nat>)
    requires Inv(s, mode) && s.phase == Closed
    ensures (forall trace: seq<State>, steps: seq<Step> :: Reopens(s, trace, steps, mode, paranoid, complete) ==>
               Durable(s.disk, mode) <= Durable(trace[|steps|].disk, mode))
       <==> Covered(s.disk, mode, paranoid, complete)
  {
    if Covered(s.disk, mode, paranoid, complete) {
      CoveredIsKept(s.disk, mode, paranoid, complete);
      forall trace: seq<State>, steps: seq<Step> | Reopens(s, trace, steps, mode, paranoid, complete)
        ensures Durable(s.disk, mode) <= Durable(trace[|steps|].disk, mode)
      {
        ReopeningProgress(s, trace, steps, mode, paranoid, complete, |steps|);
      }
    } else {
      var trace, steps := WorstReopening(s, mode, paranoid, complete);
      var n, e :| Wanted(s.disk, n) && !Whole(s.disk, n, paranoid, complete)
                  && e in LogEntries(s.disk.logs[n], mode) && e !in Kept(s.disk, paranoid, complete);
      assert e in Durable(s.disk, mode);
    }
  }

  lemma CoveredIsKept(d: Disk, mode: Mode, paranoid: bool, complete: set<nat>)
    requires Covered(d, mode, paranoid, complete)
    ensures Durable(d, mode) <= Kept(d, paranoid, complete)
  {
    forall e | e in LogsFrom(d.logs, d.manifest.logNumber, mode) ensures e in Kept(d, paranoid, complete) {
      var n :| n in d.logs && n >= d.manifest.logNumber && e in LogEntries(d.logs[n], mode);
      assert Wanted(d, n) && LogEntries(d.logs[n], mode) <= LogEntries(d.logs[n], ProcessCrash);
    }
  }

  // ---- Two failures ----

  lemma StartedOpen(s: State, todo: seq<nat>, paranoid: bool, mode: Mode) returns (t: State)
    requires s.phase == Closed && Ascending(todo) && forall n :: n in todo <==> Wanted(s.disk, n)
    ensures Next(s, t, Opening(todo, paranoid), mode)
    ensures t.disk == s.disk && t.phase.Recovering? && t.phase.todo == todo && t.phase.paranoid == paranoid
    ensures t.phase.edit == {} && t.phase.maxSequence == 0 && t.phase.newLog == None
    ensures t.phase.next > s.disk.manifest.logNumber
  {
    t := s.(phase := Recovering(paranoid, todo, {}, true, Max(s.disk.manifest.nextFile, s.disk.manifest.logNumber + 1), 0, None, {}));
  }

  lemma EmptyReplay(s: State, ok: bool, mode: Mode) returns (t: State)
    requires s.phase.Recovering? && s.phase.todo != [] && s.phase.todo[0] in s.disk.logs
    requires s.phase.paranoid && ok ==> NextLog(s) == {}
    ensures Next(s, t, Replaying([], ok, s.phase.maxSequence), mode) && t.disk == s.disk
    ensures t.phase.Recovering? && t.phase.todo == s.phase.todo[1..] && t.phase.ok == ok && t.phase.newLog == s.phase.newLog
    ensures t.phase.maxSequence == s.phase.maxSequence && t.phase.edit == s.phase.edit && t.phase.paranoid == s.phase.paranoid
    ensures t.phase.next >= s.phase.next && t.phase.next > s.phase.todo[0]
  {
    var none: seq<set<Entry>> := [];
    var p := s.phase;
    assert Union(none) == {} && AddFiles(s.disk.tables, p.next, none) == s.disk.tables;
    assert p.edit + Numbers(p.next, |none|) == p.edit;
    t := s.(phase := p.(todo := p.todo[1..], ok := ok, next := Max(p.next + |none|, p.todo[0] + 1), skipped := p.skipped + (NextLog(s) - Union(none))));
    assert RecoverLog(s, t, none, ok, p.maxSequence);
  }

  lemma FinishedOpen(s: State, mode: Mode, paranoid: bool, complete: set<nat>) returns (trace: seq<State>)
    requires s.phase.Recovering? && s.phase.todo == [] && s.phase.ok && s.phase.newLog == None
    requires s.disk.manifest.tables == {} && s.phase.edit == {} && Below(s.disk.logs.Keys, s.phase.next)
    ensures |trace| == 3 && ReopenSteps(trace, [CreatingLog, Opened], mode, paranoid, complete)
    ensures trace[0] == s && trace[2].phase.Open? && Durable(trace[2].disk, mode) == {}
  {
    var p, d := s.phase, s.disk;
    var u := s.(disk := d.(logs := d.logs[p.next := Log([], 0)]), phase := p.(next := p.next + 1, newLog := Some(p.next)));
    var last := Max(d.manifest.lastSequence, p.maxSequence);
    var disk := u.disk.(manifest := Manifest(p.next, d.manifest.tables + p.edit, p.next + 1, last));
    var t := u.(disk := disk, phase := Open(NewDB(p.next, p.next + 1, last)),
                lost := u.lost + (Durable(u.disk, mode) - Durable(disk, mode)));
    assert LogsFrom(disk.logs, p.next, mode) == {};
    trace := [s, u, t];
  }

  /** The last log is passed over with a good status, and the database opens with nothing on disk. */
  lemma OpensWithNothing(s: State, mode: Mode, complete: set<nat>) returns (trace: seq<State>, steps: seq<Step>)
    requires s.phase.Recovering? && |s.phase.todo| == 1 && s.phase.todo[0] in s.disk.logs
    requires NextLog(s) == {} || !(s.phase.paranoid || s.phase.todo[0] in complete)
    requires s.phase.newLog == None && s.phase.maxSequence == 0
    requires s.disk.manifest.tables == {} && s.phase.edit == {} && Below(s.disk.logs.Keys, Max(s.phase.next, s.phase.todo[0] + 1))
    ensures steps == [Replaying([], true, 0), CreatingLog, Opened] && trace != [] && trace[0] == s
    ensures ReopenSteps(trace, steps, mode, s.phase.paranoid, complete)
    ensures trace[3].phase.Open? && Durable(trace[3].disk, mode) == {}
  {
    var t := EmptyReplay(s, true, mode);
    var none: seq<set<Entry>> := [];
    assert Union(none) == {};
    trace := FinishedOpen(t, mode, s.phase.paranoid, complete);
    Prepend(s, Replaying([], true, 0), trace, [CreatingLog, Opened], mode, s.phase.paranoid, complete);
    trace, steps := [s] + trace, [Replaying([], true, 0)] + [CreatingLog, Opened];
  }

  lemma FailsThenOpens(s: State, mode: Mode, complete: set<nat>) returns (trace: seq<State>, steps: seq<Step>)
    requires s.phase.Recovering? && |s.phase.todo| == 2 && s.phase.todo[0] in s.disk.logs && s.phase.todo[1] in s.disk.logs
    requires s.phase.todo[0] !in complete && LogEntries(s.disk.logs[s.phase.todo[1]], ProcessCrash) == {}
    requires s.phase.newLog == None && s.phase.maxSequence == 0
    requires s.disk.manifest.tables == {} && s.phase.edit == {} && Below(s.disk.logs.Keys, s.phase.todo[1] + 1)
    ensures steps == [Replaying([], false, 0), Replaying([], true, 0), CreatingLog, Opened] && trace != [] && trace[0] == s
    ensures ReopenSteps(trace, steps, mode, s.phase.paranoid, complete)
    ensures trace[4].phase.Open? && Durable(trace[4].disk, mode) == {}
  {
    var t := EmptyReplay(s, false, mode);
    trace, steps := OpensWithNothing(t, mode, complete);
    Prepend(s, Replaying([], false, 0), trace, steps, mode, s.phase.paranoid, complete);
    trace, steps := [s] + trace, [Replaying([], false, 0)] + steps;
  }

  lemma OneWrite(logs: map<nat, Log>, e: Entry, mode: Mode) returns (s: State)
    requires 3 in logs && logs[3] == Log([{e}], 1) && forall n :: n in logs && n != 3 ==> logs[n] == Log([], 0)
    ensures s == State(Disk(Manifest(3, {}, 3, 0), logs, map[]), Closed, {e}, {}, {})
    ensures Inv(s, mode) && e in Durable(s.disk, mode)
  {
    s := State(Disk(Manifest(3, {}, 3, 0), logs, map[]), Closed, {e}, {}, {});
    assert e in logs[3].records[0] && e in LogEntries(logs[3], mode);
  }

  /** The status of the last log hides the failure of an earlier one. Logs 3 and 4 are replayed; 3, which holds e, fails;
      4 is replayed whole; with or without paranoid checks the database opens and asks for neither log again. */
  lemma EarlierFailureIsHidden(e: Entry, mode: Mode, paranoid: bool) returns (s: State, trace: seq<State>, steps: seq<Step>)
    ensures Inv(s, mode) && s.acked == {e} && e in Durable(s.disk, mode) && Reopens(s, trace, steps, mode, paranoid, {4})
    ensures steps == [Opening([3, 4], paranoid), Replaying([], false, 0), Replaying([], true, 0), CreatingLog, Opened]
    ensures e !in Durable(trace[|steps|].disk, mode)
  {
    s := OneWrite(map[3 := Log([{e}], 1), 4 := Log([], 0)], e, mode);
    var s1 := StartedOpen(s, [3, 4], paranoid, mode);
    trace, steps := FailsThenOpens(s1, mode, {4});
    Prepend(s, Opening([3, 4], paranoid), trace, steps, mode, paranoid, {4});
    trace, steps := [s] + trace, [Opening([3, 4], paranoid)] + steps;
  }

  /** Without paranoid checks one log is enough: 3, which holds e, cannot be read; the error is ignored, the replay
      reports success, and the database opens without e. */
  lemma ErrorIsIgnored(e: Entry, mode: Mode) returns (s: State, trace: seq<State>, steps: seq<Step>)
    ensures Inv(s, mode) && s.acked == {e} && e in Durable(s.disk, mode) && Reopens(s, trace, steps, mode, false, {})
    ensures steps == [Opening([3], false), Replaying([], true, 0), CreatingLog, Opened]
    ensures e !in Durable(trace[|steps|].disk, mode)
  {
    s := OneWrite(map[3 := Log([{e}], 1)], e, mode);
    var s1 := StartedOpen(s, [3], false, mode);
    trace, steps := OpensWithNothing(s1, mode, {});
    Prepend(s, Opening([3], false), trace, steps, mode, false, {});
    trace, steps := [s] + trace, [Opening([3], false)] + steps;
  }
}
