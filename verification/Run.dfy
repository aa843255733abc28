/** Runs of internal entries and what a reader sees of them at a snapshot. */
module Run {
  import opened Options

  /** A user key stands for its rank under the user comparator. */
  type Key = int
  type Value = string

  datatype ValueType = TypeDeletion | TypeValue

  datatype Entry = Entry(key: Key, seqno: nat, kind: ValueType, value: Value)

  /** The internal key order: user key ascending, sequence number descending. */
  predicate Before(a: Entry, b: Entry) {
    a.key < b.key || (a.key == b.key && a.seqno > b.seqno)
  }

  ghost predicate Sorted(run: seq<Entry>) {
    forall i, j :: 0 <= i < j < |run| ==> Before(run[i], run[j])
  }

  function Entries(run: seq<Entry>): set<Entry> {
    set e | e in run
  }

  /** No two different entries carry the same key and sequence number. */
  ghost predicate Unique(S: set<Entry>) {
    forall e, f :: e in S && f in S && e.key == f.key && e.seqno == f.seqno ==> e == f
  }

  /** e is the newest entry of k that a reader at snapshot t may see. */
  ghost predicate IsNewest(S: set<Entry>, k: Key, t: nat, e: Entry) {
    && e in S && e.key == k && e.seqno <= t
    && forall f :: f in S && f.key == k && f.seqno <= t ==> f.seqno <= e.seqno
  }

  /** The plain key -> value map a reader at snapshot t is promised. */
  ghost function Lookup(S: set<Entry>, k: Key, t: nat): Option<Value>
    requires Unique(S)
  {
    if exists e :: IsNewest(S, k, t, e) then
      var e :| IsNewest(S, k, t, e);
      if e.kind.TypeValue? then Some(e.value) else None
    else
      None
  }

  lemma LookupNewest(S: set<Entry>, k: Key, t: nat, e: Entry)
    requires Unique(S) && IsNewest(S, k, t, e)
    ensures Lookup(S, k, t) == if e.kind.TypeValue? then Some(e.value) else None
  {
  }

  lemma LookupNothing(S: set<Entry>, k: Key, t: nat)
    requires Unique(S)
    requires forall e :: e in S && e.key == k ==> e.seqno > t
    ensures Lookup(S, k, t) == None
  {
  }

  lemma SortedIsUnique(run: seq<Entry>)
    requires Sorted(run)
    ensures Unique(Entries(run))
  {
    forall e, f | e in Entries(run) && f in Entries(run) && e.key == f.key && e.seqno == f.seqno
      ensures e == f
    {
      var i :| 0 <= i < |run| && run[i] == e;
      var j :| 0 <= j < |run| && run[j] == f;
    }
  }

  /** Whenever some entry of k is visible there is a newest one. */
  lemma {:induction false} NewestExists(S: set<Entry>, k: Key, t: nat, e: Entry) returns (n: Entry)
    requires e in S && e.key == k && e.seqno <= t
    ensures IsNewest(S, k, t, n)
    decreases t - e.seqno
  {
    if f :| f in S && f.key == k && f.seqno <= t && f.seqno > e.seqno {
      n := NewestExists(S, k, t, f);
    } else {
      n := e;
    }
  }
}
