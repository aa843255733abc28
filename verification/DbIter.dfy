/** LevelDB's user-level iterator over an internal run. */
module DbIter {
  import opened Options
  import opened Run

  datatype Direction = Forward | Reverse

  /** Entry i is the newest entry of its key at snapshot s, and it is a value. */
  ghost predicate Live(run: seq<Entry>, s: nat, i: int) {
    && 0 <= i < |run| && run[i].seqno <= s && run[i].kind.TypeValue?
    && forall j :: 0 <= j < i && run[j].key == run[i].key ==> run[j].seqno > s
  }

  /** What a snapshot reader is promised for key k. */
  ghost function View(run: seq<Entry>, s: nat, k: Key): Option<Value>
    requires Sorted(run)
  {
    SortedIsUnique(run);
    Lookup(Entries(run), k, s)
  }

  ghost predicate LiveKey(run: seq<Entry>, s: nat, k: Key)
    requires Sorted(run)
  {
    View(run, s, k).Some?
  }

  /** The live entries of the run are exactly the promised bindings. */
  lemma LiveIsView(run: seq<Entry>, s: nat, i: int)
    requires Sorted(run) && Live(run, s, i)
    ensures View(run, s, run[i].key) == Some(run[i].value)
  {
    SortedIsUnique(run);
    assert run[i] in Entries(run);
    forall f | f in Entries(run) && f.key == run[i].key && f.seqno <= s
      ensures f.seqno <= run[i].seqno
    {
      var j :| 0 <= j < |run| && run[j] == f;
      assert i < j ==> Before(run[i], run[j]);
    }
    LookupNewest(Entries(run), run[i].key, s, run[i]);
  }

  lemma ViewIsLive(run: seq<Entry>, s: nat, k: Key) returns (i: int)
    requires Sorted(run) && LiveKey(run, s, k)
    ensures Live(run, s, i) && run[i].key == k && View(run, s, k) == Some(run[i].value)
  {
    SortedIsUnique(run);
    var e :| IsNewest(Entries(run), k, s, e);
    LookupNewest(Entries(run), k, s, e);
    i :| 0 <= i < |run| && run[i] == e;
    forall j | 0 <= j < i && run[j].key == k
      ensures run[j].seqno > s
    {
      assert Before(run[j], run[i]);
      assert run[j] in Entries(run);
    }
  }

  /** The part of the key space a move may land in. */
  datatype Range = Everything | Above(k: Key) | AtLeast(k: Key) | Below(k: Key) {
    predicate Has(x: Key): (has: bool)
      ensures (Everything? ==> has) && (Above? ==> (has <==> k < x)) && (AtLeast? ==> (has <==> k <= x)) && (Below? ==> (has <==> x < k))
    {
      match this
      case Everything => true
      case Above(k) => x > k
      case AtLeast(k) => x >= k
      case Below(k) => x < k
    }
  }

  /** r is the least live key in the range; None if there is none. */
  ghost predicate First(run: seq<Entry>, s: nat, range: Range, r: Option<Key>)
    requires Sorted(run)
  {
    && (r.Some? ==> LiveKey(run, s, r.value) && range.Has(r.value))
    && forall k :: LiveKey(run, s, k) && range.Has(k) ==> r.Some? && r.value <= k
  }

  /** r is the greatest live key in the range; None if there is none. */
  ghost predicate Last(run: seq<Entry>, s: nat, range: Range, r: Option<Key>)
    requires Sorted(run)
  {
    && (r.Some? ==> LiveKey(run, s, r.value) && range.Has(r.value))
    && forall k :: LiveKey(run, s, k) && range.Has(k) ==> r.Some? && r.value >= k
  }

  /** In reverse, position p stands just before the visible entries of key k:
      every entry between p and the live entry c of k is newer than the snapshot. */
  ghost predicate ReverseAt(run: seq<Entry>, s: nat, p: int, c: int) {
    && -1 <= p < c && Live(run, s, c)
    && (forall j :: p < j < c ==> run[j].seqno > s)
    && (p >= 0 ==> run[p].seqno <= s && run[p].key < run[c].key)
  }

  /** The position an internal seek to (target, s) lands on: the first entry not before it. */
  function LowerBound(run: seq<Entry>, target: Key, s: nat, from: nat): (i: nat)
    requires from <= |run|
    requires forall j :: 0 <= j < from ==> run[j].key < target || (run[j].key == target && run[j].seqno > s)
    ensures from <= i <= |run|
    ensures forall j :: 0 <= j < i ==> run[j].key < target || (run[j].key == target && run[j].seqno > s)
    ensures i < |run| ==> run[i].key > target || (run[i].key == target && run[i].seqno <= s)
    decreases |run| - from
  {
    if from < |run| && (run[from].key < target || (run[from].key == target && run[from].seqno > s)) then
      LowerBound(run, target, s, from + 1)
    else
      from
  }

  ghost predicate Ordered(up: bool, a: Key, b: Key) {
    if up then a < b else b < a
  }

  /** out lists bindings of the snapshot map, strictly in the given direction, leaving no live key out on the way. */
  ghost predicate Lists(run: seq<Entry>, s: nat, up: bool, out: seq<(Key, Value)>)
    requires Sorted(run)
  {
    && (forall i, j :: 0 <= i < j < |out| ==> Ordered(up, out[i].0, out[j].0))
    && (forall i :: 0 <= i < |out| ==> View(run, s, out[i].0) == Some(out[i].1))
    && (forall k :: LiveKey(run, s, k) && !Rest(up, out).Has(k) ==> exists i :: 0 <= i < |out| && out[i].0 == k)
  }

  /** out is the whole snapshot map: every live key once, with its value, in the given direction. */
  ghost predicate Enumerates(run: seq<Entry>, s: nat, up: bool, out: seq<(Key, Value)>)
    requires Sorted(run)
  {
    && (forall i, j :: 0 <= i < j < |out| ==> Ordered(up, out[i].0, out[j].0))
    && (forall i :: 0 <= i < |out| ==> View(run, s, out[i].0) == Some(out[i].1))
    && (forall k :: LiveKey(run, s, k) ==> exists i :: 0 <= i < |out| && out[i].0 == k)
  }

  ghost function Rest(up: bool, out: seq<(Key, Value)>): Range {
    if out == [] then Everything else if up then Above(out[|out| - 1].0) else Below(out[|out| - 1].0)
  }

  ghost predicate Extreme(run: seq<Entry>, s: nat, up: bool, range: Range, r: Option<Key>)
    requires Sorted(run)
  {
    if up then First(run, s, range, r) else Last(run, s, range, r)
  }

  lemma ListOneMore(run: seq<Entry>, s: nat, up: bool, out: seq<(Key, Value)>, k: Key, v: Value)
    requires Sorted(run) && Lists(run, s, up, out)
    requires Extreme(run, s, up, Rest(up, out), Some(k)) && View(run, s, k) == Some(v)
    ensures Lists(run, s, up, out + [(k, v)])
  {
    var more := out + [(k, v)];
    forall x | LiveKey(run, s, x) && !Rest(up, more).Has(x)
      ensures exists i :: 0 <= i < |more| && more[i].0 == x
    {
      if Rest(up, out).Has(x) {
        assert more[|out|].0 == x;
      } else {
        var i :| 0 <= i < |out| && out[i].0 == x;
        assert more[i].0 == x;
      }
    }
  }

  /** The entry just before k's first entry, if any, is visible at the snapshot. */
  ghost predicate CleanBefore(run: seq<Entry>, s: nat, k: Key) {
    forall i :: 0 <= i < |run| - 1 && run[i].key < k && run[i + 1].key == k ==> run[i].seqno <= s
  }

  lemma CleanMeansAdjacent(run: seq<Entry>, s: nat, p: int, c: int)
    requires Sorted(run) && ReverseAt(run, s, p, c)
    ensures run[p + 1].key == run[c].key <==> CleanBefore(run, s, run[c].key)
    ensures run[p + 1].key <= run[c].key
  {
    var k := run[c].key;
    assert p + 1 < c ==> Before(run[p + 1], run[c]);
    if run[p + 1].key == k {
      forall i | 0 <= i < |run| - 1
        ensures run[i].key < k && run[i + 1].key == k ==> run[i].seqno <= s
      {
        if i > p + 1 {
          assert Before(run[p + 1], run[i]);
        } else if i + 1 < p {
          assert Before(run[i + 1], run[p]);
        }
      }
    } else {
      var i := p + 1;
      while run[i + 1].key < k
        invariant p < i < c && run[i].key < k
        decreases c - i
      {
        i := i + 1;
      }
      assert i + 1 == c || Before(run[i + 1], run[c]);
      assert run[i].seqno > s;
    }
  }

  /** A search that skips only a smaller key finds the live key the reverse position belongs to. */
  lemma YieldsSameKey(run: seq<Entry>, s: nat, p: int, c: int, r: Option<Key>)
    requires Sorted(run) && ReverseAt(run, s, p, c) && run[p + 1].key < run[c].key
    requires First(run, s, Above(run[p + 1].key), r)
    ensures r == Some(run[c].key)
  {
    LiveIsView(run, s, c);
    assert Above(run[p + 1].key).Has(run[c].key);
    var j := ViewIsLive(run, s, r.value);
    KeysAscend(run);
  }

  lemma KeysAscend(run: seq<Entry>)
    requires Sorted(run)
    ensures forall i, j :: 0 <= i <= j < |run| ==> run[i].key <= run[j].key
  {
    forall i, j | 0 <= i <= j < |run|
      ensures run[i].key <= run[j].key
    {
      if i < j {
        assert Before(run[i], run[j]);
      }
    }
  }

  class DBIter {
    const run: seq<Entry>        // what the internal iterator ranges over
    const sequence: nat          // the snapshot
    var iter: int                // internal position; invalid outside 0 .. |run|
    var direction: Direction
    var valid: bool
    var savedKey: Option<Key>    // None when cleared
    var savedValue: Value

    constructor (run: seq<Entry>, s: nat)
      requires Sorted(run)
      ensures this.run == run && sequence == s && !valid && Inv()
    {
      this.run, sequence := run, s;
      iter, direction, valid, savedKey, savedValue := -1, Forward, false, None, "";
    }

    predicate IterValid() reads this { 0 <= iter < |run| }

    ghost predicate Inv() reads this {
      && Sorted(run)
      && (valid && direction == Forward ==> Live(run, sequence, iter))
      && (valid && direction == Reverse ==>
            && savedKey.Some?
            && exists c :: ReverseAt(run, sequence, iter, c) && run[c].key == savedKey.value && run[c].value == savedValue)
    }

    function Key(): Key
      requires Inv() && valid
      reads this
    {
      if direction == Forward then run[iter].key else savedKey.value
    }

    function Value(): Value
      requires Inv() && valid
      reads this
    {
      if direction == Forward then run[iter].value else savedValue
    }

    function Current(): Option<Run.Key>
      requires Inv()
      reads this
    {
      if valid then Some(Key()) else None
    }

    /** A valid iterator always shows a binding of the snapshot map. */
    lemma Shows()
      requires Inv() && valid
      ensures View(run, sequence, Key()) == Some(Value())
    {
      if direction == Forward {
        LiveIsView(run, sequence, iter);
      } else {
        var c :| ReverseAt(run, sequence, iter, c) && run[c].key == savedKey.value && run[c].value == savedValue;
        LiveIsView(run, sequence, c);
      }
    }

    method FindNextUserEntry(skip: bool)
      requires Sorted(run) && IterValid() && direction == Forward
      requires skip ==> savedKey == Some(run[iter].key)
      requires !skip ==> forall j :: 0 <= j < iter && run[j].seqno <= sequence ==> run[j].key < run[iter].key
      modifies `iter, `valid, `savedKey
      ensures Inv() && old(iter) <= iter && savedKey == None
      ensures valid ==> Live(run, sequence, iter) && (skip ==> run[iter].key > run[old(iter)].key)
      ensures forall i :: old(iter) <= i < |run| && Live(run, sequence, i) && (skip ==> run[i].key > run[old(iter)].key)
                ==> valid && iter <= i
    {
      var skipping := skip;
      ghost var p := iter;
      while IterValid()
        invariant p <= iter <= |run|
        invariant skipping ==> savedKey.Some?
        invariant skip ==> skipping && savedKey.value >= run[p].key
        invariant skipping && !(skip && savedKey.value == run[p].key) ==>
                    exists d :: p <= d < iter && run[d].seqno <= sequence && run[d].key == savedKey.value
        invariant forall j :: p <= j < iter && run[j].seqno <= sequence ==> skipping && run[j].key <= savedKey.value
        invariant forall i :: p <= i < iter && Live(run, sequence, i) ==> skip && run[i].key <= run[p].key
        decreases |run| - iter
      {
        var ikey := run[iter];
        forall j | 0 <= j < iter ensures Before(run[j], run[iter]) {}
        if ikey.seqno <= sequence {
          if ikey.kind == TypeDeletion {
            savedKey := Some(ikey.key);
            skipping := true;
          } else if skipping && ikey.key <= savedKey.value {
            // hidden
          } else {
            valid := true;
            savedKey := None;
            return;
          }
        }
        iter := iter + 1;
      }
      savedKey := None;
      valid := false;
    }

    method FindPrevUserEntry()
      requires Sorted(run) && direction == Reverse && -1 <= iter < |run|
      modifies `iter, `valid, `savedKey, `savedValue, `direction
      ensures Inv() && -1 <= iter <= old(iter)
      ensures direction == if valid then Reverse else Forward
      ensures valid ==> exists c :: c <= old(iter) && ReverseAt(run, sequence, iter, c) && run[c].key == Key()
                                    && run[c].value == Value()
                                    && forall i :: c < i <= old(iter) ==> !Live(run, sequence, i)
      ensures !valid ==> forall i :: 0 <= i <= old(iter) ==> !Live(run, sequence, i)
    {
      var valueType := TypeDeletion;
      ghost var p := iter;
      ghost var c := iter + 1;   // the visible entry processed last
      while IterValid()
        invariant direction == Reverse && -1 <= iter < c <= p + 1
        invariant forall j :: iter < j < c ==> run[j].seqno > sequence
        invariant c == p + 1 ==> valueType == TypeDeletion
        invariant c <= p ==> run[c].seqno <= sequence && run[c].kind == valueType
        invariant valueType == TypeValue ==> c <= p && savedKey == Some(run[c].key) && savedValue == run[c].value
        invariant forall i :: c < i <= p ==> !Live(run, sequence, i)
        decreases iter
      {
        var ikey := run[iter];
        if ikey.seqno <= sequence {
          assert c <= p ==> Before(run[iter], run[c]);
          if valueType != TypeDeletion && ikey.key < savedKey.value {
            break;
          }
          valueType := ikey.kind;
          if valueType == TypeDeletion {
            savedKey, savedValue := None, "";
          } else {
            savedKey, savedValue := Some(ikey.key), ikey.value;
          }
          c := iter;
        }
        iter := iter - 1;
      }
      if valueType == TypeDeletion {
        valid, savedKey, savedValue, direction := false, None, "", Forward;
      } else {
        valid := true;
        forall j | 0 <= j < c
          ensures run[j].key == run[c].key ==> run[j].seqno > sequence
        {
          if j < iter {
            assert Before(run[j], run[iter]);
          }
        }
        assert ReverseAt(run, sequence, iter, c);
      }
    }

    /** A forward search that ended at the first suitable entry from p on found the least key of the range. */
    lemma FoundFirst(p: int, range: Range)
      requires Inv() && (valid ==> direction == Forward && range.Has(run[iter].key))
      requires 0 <= p <= |run| && forall i :: 0 <= i < p && Live(run, sequence, i) ==> !range.Has(run[i].key)
      requires forall i :: p <= i < |run| && Live(run, sequence, i) && range.Has(run[i].key) ==> valid && iter <= i
      ensures First(run, sequence, range, Current())
    {
      if valid {
        LiveIsView(run, sequence, iter);
      }
      forall k | LiveKey(run, sequence, k) && range.Has(k)
        ensures valid && run[iter].key <= k
      {
        var i := ViewIsLive(run, sequence, k);
        assert valid && iter <= i;
        assert iter < i ==> Before(run[iter], run[i]);
      }
    }

    lemma FoundLast(p: int, range: Range)
      requires Inv() && -1 <= p < |run|
      requires valid ==> exists c :: c <= p && ReverseAt(run, sequence, iter, c) && run[c].key == Key()
                                     && forall i :: c < i <= p ==> !Live(run, sequence, i)
      requires !valid ==> forall i :: 0 <= i <= p ==> !Live(run, sequence, i)
      requires valid ==> range.Has(Key())
      requires forall i :: p < i < |run| && Live(run, sequence, i) ==> !range.Has(run[i].key)
      ensures Last(run, sequence, range, Current())
    {
      ghost var c: int := if valid then
        var c :| c <= p && ReverseAt(run, sequence, iter, c) && run[c].key == Key()
                 && forall i :: c < i <= p ==> !Live(run, sequence, i);
        c else -1;
      if valid {
        LiveIsView(run, sequence, c);
      }
      forall k | LiveKey(run, sequence, k) && range.Has(k)
        ensures valid && Key() >= k
      {
        var i := ViewIsLive(run, sequence, k);
        assert i <= p && valid && i <= c;
        assert i < c ==> Before(run[i], run[c]);
      }
    }

    /** The key Next skips past: its own key when moving forward, but the key of whatever
        entry follows the internal position after a reverse move. */
    ghost function SkipKey(): Run.Key
      requires Inv() && valid
      reads this
    {
      if direction == Forward then Key() else run[iter + 1].key
    }

    method Next()
      requires Inv() && valid
      modifies this
      ensures Inv() && direction == Forward
      ensures First(run, sequence, Above(old(SkipKey())), Current())
      ensures valid && old(direction) == Forward ==> old(iter) < iter < |run|
    {
      if direction == Reverse {
        direction := Forward;
        if !IterValid() {
          iter := 0;
        } else {
          iter := iter + 1;
        }
        if !IterValid() {
          assert false;   // the entries of key() follow the position
        }
      }
      savedKey := Some(run[iter].key);
      ghost var p := iter;
      forall j | 0 <= j < p ensures run[j].key <= run[p].key { assert Before(run[j], run[p]); }
      FindNextUserEntry(true);
      FoundFirst(p, Above(run[p].key));
    }

    method Prev()
      requires Inv() && valid
      modifies this
      ensures Inv()
      ensures Last(run, sequence, Below(old(Key())), Current())
      ensures direction == if valid then Reverse else Forward
      ensures valid ==> -1 <= iter < old(iter)
    {
      ghost var k := Key();
      ghost var start := iter;
      if direction == Forward {
        savedKey := Some(run[iter].key);
        while true
          invariant valid && direction == Forward
          invariant 0 <= iter <= start && savedKey == Some(k)
          invariant forall j :: iter <= j <= start ==> run[j].key == k
          decreases iter
        {
          iter := iter - 1;
          if !IterValid() {
            valid, savedKey, savedValue := false, None, "";
            forall x | LiveKey(run, sequence, x) ensures x >= k {
              var i := ViewIsLive(run, sequence, x);
              if i > start {
                assert Before(run[start], run[i]);
              }
            }
            return;
          }
          assert Before(run[iter], run[iter + 1]);
          if run[iter].key < savedKey.value {
            break;
          }
        }
        direction := Reverse;
      }
      ghost var p := iter;
      FindPrevUserEntry();
      FoundLast(p, Below(k));
    }

    /** When Next turns round it yields the successor exactly if the entry just before the current key's
        entries is not newer than the snapshot; otherwise it shows the current key a second time. */
    lemma TurningRound(r: Option<Run.Key>)
      requires Inv() && valid && direction == Reverse
      requires First(run, sequence, Above(SkipKey()), r)
      ensures First(run, sequence, Above(Key()), r) <==> CleanBefore(run, sequence, Key())
      ensures !CleanBefore(run, sequence, Key()) ==> r == Some(Key())
    {
      var c :| ReverseAt(run, sequence, iter, c) && run[c].key == savedKey.value && run[c].value == savedValue;
      CleanMeansAdjacent(run, sequence, iter, c);
      if run[iter + 1].key != run[c].key {
        YieldsSameKey(run, sequence, iter, c, r);
      }
    }

    method Seek(target: Run.Key)
      requires Inv()
      modifies this
      ensures Inv() && direction == Forward
      ensures First(run, sequence, AtLeast(target), Current())
    {
      direction, savedValue := Forward, "";
      savedKey := None;
      iter := LowerBound(run, target, sequence, 0);
      ghost var p := iter;
      if IterValid() {
        FindNextUserEntry(false);
      } else {
        valid := false;
      }
      FoundFirst(p, AtLeast(target));
    }

    method SeekToFirst()
      requires Inv()
      modifies this
      ensures Inv() && direction == Forward
      ensures First(run, sequence, Everything, Current())
    {
      direction, savedValue := Forward, "";
      iter := 0;
      if IterValid() {
        FindNextUserEntry(false);
      } else {
        valid := false;
      }
      FoundFirst(0, Everything);
    }

    method SeekToLast()
      requires Inv()
      modifies this
      ensures Inv() && direction == if valid then Reverse else Forward
      ensures Last(run, sequence, Everything, Current())
    {
      direction, savedValue := Reverse, "";
      iter := |run| - 1;
      FindPrevUserEntry();
      FoundLast(|run| - 1, Everything);
    }
  }

  /** SeekToFirst and Next until invalid list the snapshot map: every live key once, ascending, with its value. */
  method ScanForward(it: DBIter) returns (out: seq<(Key, Value)>)
    requires it.Inv()
    modifies it
    ensures it.Inv() && !it.valid
    ensures Enumerates(it.run, it.sequence, true, out)
  {
    out := [];
    it.SeekToFirst();
    while it.valid
      invariant it.Inv() && it.direction == Forward
      invariant Lists(it.run, it.sequence, true, out)
      invariant First(it.run, it.sequence, Rest(true, out), it.Current())
      decreases if it.valid then |it.run| - it.iter else 0
    {
      it.Shows();
      ListOneMore(it.run, it.sequence, true, out, it.Key(), it.Value());
      out := out + [(it.Key(), it.Value())];
      it.Next();
    }
  }

  /** SeekToLast and Prev until invalid list the same map in strictly descending key order. */
  method ScanBackward(it: DBIter) returns (out: seq<(Key, Value)>)
    requires it.Inv()
    modifies it
    ensures it.Inv() && !it.valid
    ensures Enumerates(it.run, it.sequence, false, out)
  {
    out := [];
    it.SeekToLast();
    while it.valid
      invariant it.Inv() && (it.valid ==> -1 <= it.iter)
      invariant Lists(it.run, it.sequence, false, out)
      invariant Last(it.run, it.sequence, Rest(false, out), it.Current())
      decreases if it.valid then it.iter + 2 else 0
    {
      it.Shows();
      ListOneMore(it.run, it.sequence, false, out, it.Key(), it.Value());
      out := out + [(it.Key(), it.Value())];
      it.Prev();
    }
  }

  lemma SuccessorOfPredecessor(run: seq<Entry>, s: nat, k: Key, previous: Key, r: Option<Key>)
    requires Sorted(run) && LiveKey(run, s, k)
    requires Last(run, s, Below(k), Some(previous)) && First(run, s, Above(previous), r)
    ensures r == Some(k)
  {
    assert Above(previous).Has(k);
    assert Below(k).Has(r.value) <==> r.value < k;
  }

  lemma PredecessorOfSuccessor(run: seq<Entry>, s: nat, k: Key, next: Key, r: Option<Key>)
    requires Sorted(run) && LiveKey(run, s, k)
    requires First(run, s, Above(k), Some(next)) && Last(run, s, Below(next), r)
    ensures r == Some(k)
  {
    assert Below(next).Has(k);
    assert Above(k).Has(r.value) <==> r.value > k;
  }

  /** No entry is newer than the snapshot. */
  ghost predicate AllVisible(run: seq<Entry>, s: nat) {
    forall i :: 0 <= i < |run| ==> run[i].seqno <= s
  }

  /** There and back: from any position with a predecessor, Prev and then Next return to the key started
      from exactly if the predecessor has no newer-than-snapshot entry just before its own entries; so they always do
      if no entry is newer than the snapshot. */
  method PrevThenNext(it: DBIter) returns (previous: Option<Key>, back: Option<Key>)
    requires it.Inv() && it.valid
    modifies it
    ensures it.Inv() && Last(it.run, it.sequence, Below(old(it.Key())), previous)
    ensures previous == None ==> back == None
    ensures previous != None ==> back == it.Current()
    ensures previous != None ==>
              back == Some(if CleanBefore(it.run, it.sequence, previous.value) then old(it.Key()) else previous.value)
    ensures previous != None && AllVisible(it.run, it.sequence) ==> back == Some(old(it.Key()))
  {
    ghost var k := it.Key();
    it.Shows();
    it.Prev();
    previous, back := it.Current(), None;
    if it.valid {
      ghost var skip := it.SkipKey();
      forall r | First(it.run, it.sequence, Above(skip), r)
        ensures r == Some(if CleanBefore(it.run, it.sequence, previous.value) then k else previous.value)
      {
        it.TurningRound(r);
        if CleanBefore(it.run, it.sequence, previous.value) {
          SuccessorOfPredecessor(it.run, it.sequence, k, previous.value, r);
        }
      }
      it.Next();
      back := it.Current();
    }
  }

  /** The other way round: Next and then Prev return to the key started from if Next moves on at all to a successor; it
      does so from every forward position, and from a reverse one exactly if the key has no newer-than-snapshot entry just
      before its own entries. From the others it stays, and Prev goes to the predecessor. */
  method NextThenPrev(it: DBIter) returns (next: Option<Key>, back: Option<Key>)
    requires it.Inv() && it.valid
    modifies it
    ensures it.Inv() && (next == None ==> back == None)
    ensures var moves := old(it.direction) == Forward || CleanBefore(it.run, it.sequence, old(it.Key()));
            if moves then First(it.run, it.sequence, Above(old(it.Key())), next) && (next != None ==> back == Some(old(it.Key())))
            else next == Some(old(it.Key())) && Last(it.run, it.sequence, Below(old(it.Key())), back)
    ensures next != None && AllVisible(it.run, it.sequence) ==> back == Some(old(it.Key()))
  {
    ghost var k := it.Key();
    ghost var moves := it.direction == Forward || CleanBefore(it.run, it.sequence, k);
    it.Shows();
    ghost var skip := it.SkipKey();
    if it.direction == Reverse {
      forall r | First(it.run, it.sequence, Above(skip), r)
        ensures First(it.run, it.sequence, Above(k), r) <==> moves
        ensures !moves ==> r == Some(k)
      {
        it.TurningRound(r);
      }
    }
    it.Next();
    next, back := it.Current(), None;
    if it.valid {
      ghost var n := it.Key();
      it.Prev();
      back := it.Current();
      if moves {
        PredecessorOfSuccessor(it.run, it.sequence, k, n, back);
      }
    }
  }

  /** The exception: a@1, b@5, c@2 read at snapshot 3. The last live key is c, and Next yields c again. */
  method RepeatedKey() returns (first: Option<Key>, second: Option<Key>)
    ensures first == Some(2) && second == Some(2)
  {
    var run := [Entry(0, 1, TypeValue, "x"), Entry(1, 5, TypeValue, "y"), Entry(2, 2, TypeValue, "z")];
    var it := new DBIter(run, 3);
    assert Live(run, 3, 2) && !Live(run, 3, 1);
    LiveIsView(run, 3, 2);
    it.SeekToLast();
    assert Everything.Has(2);
    forall k | LiveKey(run, 3, k) ensures k <= 2 { var i := ViewIsLive(run, 3, k); }
    first := it.Current();
    assert it.valid && it.Key() == 2;
    assert run[1].key < 2 && run[2].key == 2 && run[1].seqno > 3;
    ghost var skip := it.SkipKey();
    forall r | First(run, 3, Above(skip), r) ensures r == Some(2) { it.TurningRound(r); }
    it.Next();
    second := it.Current();
  }
}
