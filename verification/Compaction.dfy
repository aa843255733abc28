/** The drop rule of LevelDB's level compaction. */
module Compaction {
  import opened Options
  import opened Run

  const MAX_SEQUENCE_NUMBER: nat := 0xFF_FFFF_FFFF_FFFF   // 2^56 - 1

  datatype Table = Table(smallest: Entry, largest: Entry, entries: seq<Entry>)

  /** What decides the drops: the oldest snapshot still read, and the keys known to have no deeper entry. */
  datatype Policy = Policy(smallestSnapshot: nat, isBaseLevelForKey: Key -> bool)

  /** Entry i is dropped: hidden by the entry just before it, or an obsolete deletion marker. */
  predicate Dropped(input: seq<Entry>, p: Policy, i: nat)
    requires i < |input|
  {
    || (i > 0 && input[i - 1].key == input[i].key && input[i - 1].seqno <= p.smallestSnapshot)
    || (input[i].kind.TypeDeletion? && input[i].seqno <= p.smallestSnapshot && p.isBaseLevelForKey(input[i].key))
  }

  /** The entries among the first n that are kept, in order. */
  function Survivors(input: seq<Entry>, p: Policy, n: nat): (kept: seq<Entry>)
    requires n <= |input|
  {
    if n == 0 then [] else
      var kept := Survivors(input, p, n - 1);
      if Dropped(input, p, n - 1) then kept else kept + [input[n - 1]]
  }

  lemma {:induction false} SurvivorsAre(input: seq<Entry>, p: Policy, n: nat)
    requires n <= |input|
    ensures forall e :: e in Survivors(input, p, n) <==> exists i: nat :: i < n && input[i] == e && !Dropped(input, p, i)
  {
    if n > 0 {
      SurvivorsAre(input, p, n - 1);
    }
  }

  lemma {:induction false} SurvivorsSorted(input: seq<Entry>, p: Policy, n: nat)
    requires n <= |input| && Sorted(input)
    ensures Sorted(Survivors(input, p, n))
  {
    if n > 0 {
      SurvivorsSorted(input, p, n - 1);
      SurvivorsAre(input, p, n - 1);
      var kept := Survivors(input, p, n - 1);
      forall i | 0 <= i < |kept| ensures Before(kept[i], input[n - 1]) {
        var e := kept[i];
        assert e in kept;
        var j: nat :| j < n - 1 && input[j] == e;
      }
    }
  }

  lemma SurvivorsOneMore(input: seq<Entry>, p: Policy, n: nat)
    requires n < |input|
    ensures Survivors(input, p, n + 1) == Survivors(input, p, n) + if Dropped(input, p, n) then [] else [input[n]]
  {
  }

  lemma Prefixes(a: seq<Entry>, b: seq<Entry>, c: seq<Entry>)
    requires a <= b <= c
    ensures a <= c
  {
  }

  lemma {:induction false} SurvivorsGrow(input: seq<Entry>, p: Policy, m: nat, n: nat)
    requires m <= n <= |input|
    ensures Survivors(input, p, m) <= Survivors(input, p, n)
    decreases n
  {
    if m < n {
      SurvivorsGrow(input, p, m, n - 1);
    }
  }

  /** Past an entry the oldest snapshot can see, every older entry of its key is dropped. */
  lemma {:induction false} DroppedBehind(input: seq<Entry>, p: Policy, h: nat, i: nat)
    requires Sorted(input) && h < i < |input|
    requires input[h].key == input[i].key && input[h].seqno <= p.smallestSnapshot
    ensures Dropped(input, p, i)
  {
    assert Before(input[h], input[i - 1]) || h == i - 1;
    assert Before(input[i - 1], input[i]);
  }

  lemma OnlyPlace(input: seq<Entry>, i: nat, j: nat)
    requires Sorted(input) && i < |input| && j < |input| && input[i] == input[j]
    ensures i == j
  {
  }

  lemma NewerIsBefore(input: seq<Entry>, h: nat, i: nat)
    requires Sorted(input) && h < |input| && i < |input| && input[h].key == input[i].key && input[h].seqno > input[i].seqno
    ensures h < i
  {
  }

  /** Exactly these entries are kept: no deletion marker that the oldest snapshot sees and that has nothing below it to
      hide, and no entry older than another of its key that the oldest snapshot sees. */
  lemma KeptExactly(input: seq<Entry>, p: Policy, e: Entry)
    requires Sorted(input)
    ensures e in Survivors(input, p, |input|)
       <==> e in input
            && !(e.kind == TypeDeletion && e.seqno <= p.smallestSnapshot && p.isBaseLevelForKey(e.key))
            && forall f :: f in input && f.key == e.key && f.seqno <= p.smallestSnapshot ==> f.seqno <= e.seqno
  {
    SurvivorsAre(input, p, |input|);
    if e in input {
      var i: nat :| i < |input| && input[i] == e;
      assert i > 0 ==> input[i - 1] in input && Before(input[i - 1], input[i]);
      forall j: nat | j < |input| && input[j] == e ensures j == i {
        OnlyPlace(input, i, j);
      }
      if f :| f in input && f.key == e.key && f.seqno <= p.smallestSnapshot && f.seqno > e.seqno {
        var h: nat :| h < |input| && input[h] == f;
        NewerIsBefore(input, h, i);
        DroppedBehind(input, p, h, i);
      }
    }
  }

  /** The other entries of the database: a base-level key has none older than the entries compacted. */
  ghost predicate Consistent(input: seq<Entry>, p: Policy, others: set<Entry>) {
    && Unique(Entries(input) + others)
    && forall e, i :: e in others && 0 <= i < |input| && e.key == input[i].key && p.isBaseLevelForKey(e.key)
         ==> e.seqno > input[i].seqno
  }

  /** Compaction preserves meaning: no reader at the oldest snapshot or later sees a difference,
      whatever the rest of the database holds. */
  lemma CompactionPreservesLookup(input: seq<Entry>, p: Policy, others: set<Entry>, k: Key, t: nat)
    requires Sorted(input) && Consistent(input, p, others)
    requires t >= p.smallestSnapshot
    ensures Unique(Entries(Survivors(input, p, |input|)) + others)
    ensures Lookup(Entries(Survivors(input, p, |input|)) + others, k, t) == Lookup(Entries(input) + others, k, t)
  {
    var all, kept := Entries(input) + others, Entries(Survivors(input, p, |input|)) + others;
    SurvivorsAre(input, p, |input|);
    assert kept <= all;
    if e :| IsNewest(all, k, t, e) {
      LookupNewest(all, k, t, e);
      if e in kept {
        LookupNewest(kept, k, t, e);
      } else {
        ObsoleteDeletion(input, p, others, k, t, e);
        LookupNothing(kept, k, t);
      }
    } else {
      forall f | f in all && f.key == k ensures f.seqno > t {
        if f.seqno <= t {
          var n := NewestExists(all, k, t, f);
        }
      }
      LookupNothing(all, k, t);
      LookupNothing(kept, k, t);
    }
  }

  /** If the newest visible entry is dropped it is a deletion marker, and nothing visible remains of its key. */
  lemma ObsoleteDeletion(input: seq<Entry>, p: Policy, others: set<Entry>, k: Key, t: nat, e: Entry)
    requires Sorted(input) && Consistent(input, p, others) && t >= p.smallestSnapshot
    requires IsNewest(Entries(input) + others, k, t, e)
    requires e !in Entries(Survivors(input, p, |input|)) + others
    ensures e.kind == TypeDeletion
    ensures forall f :: f in Entries(Survivors(input, p, |input|)) + others && f.key == k ==> f.seqno > t
  {
    SurvivorsAre(input, p, |input|);
    var i: nat :| i < |input| && input[i] == e;
    if i > 0 {
      assert Before(input[i - 1], input[i]);
      assert input[i - 1] in Entries(input) + others;
    }
    forall f | f in Entries(Survivors(input, p, |input|)) + others && f.key == k
      ensures f.seqno > t
    {
      if f in others {
        assert f.seqno > input[i].seqno;
      } else {
        var j: nat :| j < |input| && input[j] == f && !Dropped(input, p, j);
        if i < j {
          DroppedBehind(input, p, i, j);
        } else {
          assert i == j || Before(input[j], input[i]);
        }
      }
      assert f in Entries(input) + others;
    }
  }

  function Concat(tables: seq<Table>): seq<Entry> {
    if tables == [] then [] else Concat(tables[..|tables| - 1]) + tables[|tables| - 1].entries
  }

  lemma ConcatOneMore(tables: seq<Table>, t: Table)
    ensures Concat(tables + [t]) == Concat(tables) + t.entries
  {
    assert (tables + [t])[..|tables|] == tables;
  }

  /** In the order they were taken, snapshots ascend, and none is beyond the last sequence number. */
  predicate SnapshotList(snapshots: seq<nat>, lastSequence: nat) {
    && (forall i, j :: 0 <= i < j < |snapshots| ==> snapshots[i] <= snapshots[j])
    && forall q :: q in snapshots ==> q <= lastSequence
  }

  lemma SnapshotTaken(snapshots: seq<nat>, lastSequence: nat)
    requires SnapshotList(snapshots, lastSequence)
    ensures SnapshotList(snapshots + [lastSequence], lastSequence)
  {
    assert forall i :: 0 <= i < |snapshots| ==> snapshots[i] in snapshots;
  }

  lemma SnapshotReleased(snapshots: seq<nat>, lastSequence: nat, i: nat)
    requires SnapshotList(snapshots, lastSequence) && i < |snapshots|
    ensures SnapshotList(snapshots[..i] + snapshots[i + 1..], lastSequence)
    ensures forall q :: q in snapshots[..i] + snapshots[i + 1..] ==> q in snapshots
  {
    var list := snapshots[..i] + snapshots[i + 1..];
    assert forall j :: 0 <= j < |list| ==> list[j] == snapshots[if j < i then j else j + 1];
    forall q | q in list ensures q in snapshots {
      var j :| 0 <= j < |list| && list[j] == q;
    }
  }

  /** The snapshot a compaction takes for the oldest: the first one of the list. */
  function SmallestSnapshot(snapshots: seq<nat>, lastSequence: nat): nat {
    if snapshots == [] then lastSequence else snapshots[0]
  }

  /** It is the least of the snapshots held, or the last sequence number if there is none. */
  lemma SmallestIsOldest(snapshots: seq<nat>, lastSequence: nat)
    requires SnapshotList(snapshots, lastSequence)
    ensures if snapshots == [] then SmallestSnapshot(snapshots, lastSequence) == lastSequence
            else SmallestSnapshot(snapshots, lastSequence) in snapshots
    ensures SmallestSnapshot(snapshots, lastSequence) <= lastSequence
    ensures forall q :: q in snapshots ==> SmallestSnapshot(snapshots, lastSequence) <= q
  {
    if snapshots != [] {
      assert snapshots[0] in snapshots;
      forall q | q in snapshots ensures snapshots[0] <= q {
        var i :| 0 <= i < |snapshots| && snapshots[i] == q;
      }
    }
  }

  /** A table records the range of keys it holds. */
  predicate WellFormed(t: Table) {
    t.entries != [] && t.smallest == t.entries[0] && t.largest == t.entries[|t.entries| - 1]
  }

  /** What the environment does to a compaction: it may be told to shut down, and files may fail. stopBefore and isFull
      are the cuts between output tables; they may fall anywhere. */
  datatype Environment = Environment(
    shutsDown: nat -> bool, opens: nat -> bool, finishes: Table -> bool, inputOk: bool,
    stopBefore: nat -> bool, isFull: Table -> bool)
  {
    ghost predicate Undisturbed() {
      inputOk && (forall pos :: !shutsDown(pos) && opens(pos)) && (forall t :: finishes(t))
    }
  }

  /** The output tables of one compaction; the last one may still be open. */
  class CompactionState {
    var outputs: seq<Table>
    var builder: Option<Table>

    constructor ()
      ensures Valid() && Written() == [] && builder == None
    {
      outputs, builder := [], None;
    }

    ghost predicate Valid() reads this {
      && (forall t :: t in outputs ==> WellFormed(t))
      && (builder.Some? ==> WellFormed(builder.value))
    }

    /** Everything added so far, in order. */
    ghost function Written(): seq<Entry> reads this {
      Concat(outputs) + if builder.Some? then builder.value.entries else []
    }

    method Add(e: Entry)
      requires Valid()
      modifies this
      ensures Valid() && builder.Some? && Written() == old(Written()) + [e]
    {
      if builder.None? {
        builder := Some(Table(e, e, [e]));
      } else {
        builder := Some(builder.value.(largest := e, entries := builder.value.entries + [e]));
      }
    }

    /** Closes the open table; if that fails the table is abandoned. */
    method FinishOutputFile(succeeds: bool) returns (status: bool)
      requires Valid() && builder.Some?
      modifies this
      ensures Valid() && builder == None && status == succeeds
      ensures Written() == if status then old(Written()) else Concat(old(outputs))
    {
      ConcatOneMore(outputs, builder.value);
      if succeeds {
        outputs := outputs + [builder.value];
      }
      builder, status := None, succeeds;
    }

    /** Writes an entry, if it is not dropped. An open table is closed before it if it is to stop there, and after it if
        it is full; if there is none one is opened. */
    method Emit(e: Entry, drop: bool, pos: nat, env: Environment) returns (status: bool)
      requires Valid()
      modifies this
      ensures Valid() && Written() <= old(Written()) + if drop then [] else [e]
      ensures status ==> Written() == old(Written()) + if drop then [] else [e]
      ensures !status ==> builder == None && !env.Undisturbed()
    {
      status := true;
      if env.stopBefore(pos) && builder.Some? {
        ConcatWritten();
        status := FinishOutputFile(env.finishes(builder.value));
        if !status {
          return;
        }
      }
      if !drop {
        if builder.None? && !env.opens(pos) {
          return false;
        }
        Add(e);
        if env.isFull(builder.value) {
          ConcatWritten();
          status := FinishOutputFile(env.finishes(builder.value));
        }
      }
    }

    /** The end of the loop: the open table is closed, and the input asked for errors. */
    method Close(ok: bool, env: Environment) returns (status: bool)
      requires Valid()
      modifies this
      ensures Valid() && Concat(outputs) <= old(Written())
      ensures status ==> ok && Concat(outputs) == old(Written())
      ensures ok && env.Undisturbed() ==> status
    {
      status := ok;
      ConcatWritten();
      if status && builder.Some? {
        status := FinishOutputFile(env.finishes(builder.value));
      }
      ConcatWritten();
      if status {
        status := env.inputOk;
      }
    }

    lemma ConcatWritten()
      ensures Concat(outputs) <= Written()
    {
    }
  }

  /** The compaction loop. Success means that the tables hold exactly the survivors; after a failure, which needs a
      cause, what has been written is a part of them from the front, and is not installed. */
  method WriteSurvivors(input: seq<Entry>, p: Policy, env: Environment) returns (status: bool, outputs: seq<Table>)
    requires p.smallestSnapshot < MAX_SEQUENCE_NUMBER
    ensures status ==> Concat(outputs) == Survivors(input, p, |input|)
    ensures Concat(outputs) <= Survivors(input, p, |input|)
    ensures env.Undisturbed() ==> status
    ensures forall t :: t in outputs ==> WellFormed(t)
  {
    var compact := new CompactionState();
    var currentUserKey: Option<Key> := None;
    var lastSequenceForKey := MAX_SEQUENCE_NUMBER;
    var pos := 0;
    status := true;
    while pos < |input| && status && !env.shutsDown(pos)
      invariant 0 <= pos <= |input|
      invariant if pos == 0 then currentUserKey == None
                else currentUserKey == Some(input[pos - 1].key) && lastSequenceForKey == input[pos - 1].seqno
      invariant fresh(compact) && compact.Valid()
      invariant compact.Written() <= Survivors(input, p, pos)
      invariant if status then compact.Written() == Survivors(input, p, pos) else compact.builder == None && !env.Undisturbed()
    {
      var ikey := input[pos];
      if currentUserKey != Some(ikey.key) {
        currentUserKey := Some(ikey.key);
        lastSequenceForKey := MAX_SEQUENCE_NUMBER;
      }
      var drop := Drops(input, pos, lastSequenceForKey, p);
      lastSequenceForKey := ikey.seqno;
      SurvivorsOneMore(input, p, pos);
      status := compact.Emit(ikey, drop, pos, env);
      pos := pos + 1;
    }
    status := compact.Close(status && !env.shutsDown(pos), env);
    outputs := compact.outputs;
    SurvivorsGrow(input, p, pos, |input|);
    Prefixes(Concat(outputs), Survivors(input, p, pos), Survivors(input, p, |input|));
  }

  /** The drop rule as the loop applies it, to the entry at hand and the sequence number of the one before it, if that
      is of the same key. */
  method Drops(input: seq<Entry>, pos: nat, lastSequenceForKey: nat, p: Policy) returns (drop: bool)
    requires pos < |input| && p.smallestSnapshot < MAX_SEQUENCE_NUMBER
    requires lastSequenceForKey
          == if pos > 0 && input[pos - 1].key == input[pos].key then input[pos - 1].seqno else MAX_SEQUENCE_NUMBER
    ensures drop <==> Dropped(input, p, pos)
  {
    var ikey := input[pos];
    drop := false;
    if lastSequenceForKey <= p.smallestSnapshot {
      drop := true;
    } else if ikey.kind == TypeDeletion && ikey.seqno <= p.smallestSnapshot && p.isBaseLevelForKey(ikey.key) {
      drop := true;
    }
  }

  /** A compaction takes its oldest snapshot, then writes the input without what nobody from that snapshot on can see:
      entries older than another one of their key that the snapshot sees, and deletion markers it sees that have nothing
      below them to hide. */
  method DoCompactionWork(
    input: seq<Entry>, snapshots: seq<nat>, lastSequence: nat, isBaseLevelForKey: Key -> bool, env: Environment)
    returns (status: bool, outputs: seq<Table>, oldest: nat)
    requires Sorted(input) && SnapshotList(snapshots, lastSequence) && lastSequence < MAX_SEQUENCE_NUMBER
    ensures if snapshots == [] then oldest == lastSequence else oldest in snapshots && forall q :: q in snapshots ==> oldest <= q
    ensures status ==> Sorted(Concat(outputs))
    ensures status ==>
              forall e :: e in Concat(outputs) <==>
                            e in input && !(e.kind == TypeDeletion && e.seqno <= oldest && isBaseLevelForKey(e.key))
                            && forall f :: f in input && f.key == e.key && f.seqno <= oldest ==> f.seqno <= e.seqno
    ensures !status ==> !env.Undisturbed() && Concat(outputs) <= Survivors(input, Policy(oldest, isBaseLevelForKey), |input|)
    ensures forall t :: t in outputs ==>
              t.entries != [] && t.smallest == t.entries[0] && t.largest == t.entries[|t.entries| - 1]
  {
    SmallestIsOldest(snapshots, lastSequence);
    if snapshots == [] {
      oldest := lastSequence;
    } else {
      oldest := snapshots[0];
    }
    var p := Policy(oldest, isBaseLevelForKey);
    status, outputs := WriteSurvivors(input, p, env);
    SurvivorsSorted(input, p, |input|);
    forall e {
      KeptExactly(input, p, e);
    }
  }
}
