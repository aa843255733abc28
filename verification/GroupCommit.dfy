/** LevelDB's write queue: writers line up, the front one leads and commits a group for those behind it. */
module GroupCommit {
  import opened Options

  type Op = string

  /** A write batch: its operations and the size of its serialised form, a 12-byte header included. */
  datatype Batch = Batch(ops: seq<Op>, bytes: nat)

  /** A queued request. A writer without a batch only waits for the writes before it. */
  datatype Writer = Writer(batch: Option<Batch>, sync: bool) {
    predicate WellFormed() {
      batch.Some? ==> batch.value.bytes >= HEADER
    }

    function Bytes(): nat {
      if batch.Some? then batch.value.bytes else 0
    }

    function Ops(): seq<Op> {
      if batch.Some? then batch.value.ops else []
    }
  }

  const HEADER: nat := 12

  /** The serialised sizes, and the operations, of the first n writers. */
  function TotalBytes(ws: seq<Writer>, n: nat): nat
    requires n <= |ws|
  {
    if n == 0 then 0 else TotalBytes(ws, n - 1) + ws[n - 1].Bytes()
  }

  function AllOps(ws: seq<Writer>, n: nat): seq<Op>
    requires n <= |ws|
  {
    if n == 0 then [] else AllOps(ws, n - 1) + ws[n - 1].Ops()
  }

  /** How many of the first n writers have a batch. */
  function Batches(ws: seq<Writer>, n: nat): nat
    requires n <= |ws|
  {
    if n == 0 then 0 else Batches(ws, n - 1) + if ws[n - 1].batch.Some? then 1 else 0
  }

  /** Both depend on those writers only. */
  lemma {:induction false} SamePrefix(ws: seq<Writer>, vs: seq<Writer>, n: nat)
    requires n <= |ws| && n <= |vs| && forall i :: 0 <= i < n ==> ws[i] == vs[i]
    ensures TotalBytes(ws, n) == TotalBytes(vs, n) && AllOps(ws, n) == AllOps(vs, n)
  {
    if n > 0 {
      SamePrefix(ws, vs, n - 1);
    }
  }

  lemma {:induction false} AllOpsGrow(ws: seq<Writer>, m: nat, n: nat)
    requires m <= n <= |ws|
    ensures AllOps(ws, m) <= AllOps(ws, n)
    decreases n
  {
    if m < n {
      AllOpsGrow(ws, m, n - 1);
    }
  }

  /** ops is cut at `starts` into the batches of the first n writers, in queue order; a writer without one has no part. */
  ghost predicate InOrder(ops: seq<Op>, ws: seq<Writer>, n: nat, starts: seq<nat>) {
    && n <= |ws| && |starts| == n + 1 && starts[0] == 0 && starts[n] == |ops|
    && (forall j :: 0 <= j < n ==> HasPart(ops, ws[j], starts[j], starts[j + 1]))
  }

  ghost predicate HasPart(ops: seq<Op>, w: Writer, from: nat, to: nat) {
    from <= to <= |ops| && ops[from..to] == match w.batch case Some(b) => b.ops case None => []
  }

  lemma {:induction false} AllOpsInOrder(ws: seq<Writer>, n: nat) returns (starts: seq<nat>)
    requires n <= |ws|
    ensures InOrder(AllOps(ws, n), ws, n, starts)
    ensures forall j :: 0 <= j <= n ==> starts[j] == |AllOps(ws, j)|
  {
    if n == 0 {
      starts := [0];
    } else {
      var before := AllOpsInOrder(ws, n - 1);
      starts := before + [|AllOps(ws, n)|];
      forall j | 0 <= j < n ensures HasPart(AllOps(ws, n), ws[j], starts[j], starts[j + 1]) {
        if j < n - 1 {
          assert HasPart(AllOps(ws, n - 1), ws[j], before[j], before[j + 1]);
          assert AllOps(ws, n)[before[j]..before[j + 1]] == AllOps(ws, n - 1)[before[j]..before[j + 1]];
        }
      }
    }
  }

  /** How large a group may grow: one megabyte, or 128 kilobytes beyond a small first batch. */
  function MaxSize(first: nat): nat {
    if first <= 0x2_0000 then first + 0x2_0000 else 0x10_0000
  }

  /** The first n writers may be committed together. */
  ghost predicate Fits(queue: seq<Writer>, n: nat)
  {
    && 1 <= n <= |queue|
    && (forall i :: 0 <= i < n && queue[i].sync ==> queue[0].sync)
    && TotalBytes(queue, n) <= Max(queue[0].Bytes(), MaxSize(queue[0].Bytes()))
  }

  /** A writer joins the n before it exactly if it does not sync under a leader that does not, and, having a batch, keeps
      the group within a megabyte, or within 128 kilobytes beyond a leader's batch that is no larger than that. */
  lemma FitsOneMore(queue: seq<Writer>, n: nat)
    requires Fits(queue, n) && n < |queue| && queue[0].batch.Some? && queue[n].WellFormed()
    ensures var size, first := TotalBytes(queue, n) + queue[n].Bytes(), queue[0].batch.value.bytes;
            Fits(queue, n + 1)
            <==> (queue[n].sync ==> queue[0].sync)
                 && (queue[n].batch.None? || size <= if first <= 131072 then first + 131072 else 1048576)
  {
    FirstIsCounted(queue, n);
  }

  lemma {:induction false} FirstIsCounted(queue: seq<Writer>, n: nat)
    requires 1 <= n <= |queue|
    ensures queue[0].Bytes() <= TotalBytes(queue, n)
    decreases n
  {
    if n > 1 {
      FirstIsCounted(queue, n - 1);
    } else {
      assert TotalBytes(queue, 0) == 0;
    }
  }

  /** Two writers with batches. */
  lemma TwoFit(a: Batch, b: Batch, sync: bool, alsoSync: bool)
    requires b.bytes >= 12
    ensures Fits([Writer(Some(a), sync), Writer(Some(b), alsoSync)], 2)
       <==> (alsoSync ==> sync) && a.bytes + b.bytes <= if a.bytes <= 131072 then a.bytes + 131072 else 1048576
  {
    var queue := [Writer(Some(a), sync), Writer(Some(b), alsoSync)];
    assert TotalBytes(queue, 1) == TotalBytes(queue, 0) + a.bytes;
    FitsOneMore(queue, 1);
  }

  function Max(a: nat, b: nat): (m: nat)
    ensures m >= a && m >= b && (m == a || m == b)
  {
    if a < b then b else a
  }

  /** Appending drops the header of the appended batch. */
  function Append(dst: Batch, src: Batch): Batch
    requires src.bytes >= HEADER
  {
    Batch(dst.ops + src.ops, dst.bytes + src.bytes - HEADER)
  }

  /** b is the batch of the first n writers, with one header for all. */
  predicate Holds(b: Batch, queue: seq<Writer>, n: nat)
    requires n <= |queue|
  {
    b.ops == AllOps(queue, n) && b.bytes + 12 * Batches(queue, n) == TotalBytes(queue, n) + 12
  }

  lemma HoldsOneMore(b: Batch, queue: seq<Writer>, n: nat)
    requires n < |queue| && Holds(b, queue, n) && queue[n].WellFormed()
    ensures Holds(if queue[n].batch.Some? then Append(b, queue[n].batch.value) else b, queue, n + 1)
  {
  }

  lemma GroupInOrder(b: Batch, queue: seq<Writer>, n: nat)
    requires 1 <= n <= |queue| && Holds(b, queue, n)
    ensures queue[0].Ops() <= b.ops
    ensures exists starts :: InOrder(b.ops, queue, n, starts)
  {
    AllOpsGrow(queue, 1, n);
    assert AllOps(queue, 1) == AllOps(queue, 0) + queue[0].Ops() == queue[0].Ops();
    var starts := AllOpsInOrder(queue, n);
  }

  /** Builds the longest group the rules allow: it holds exactly the operations of the first n writers,
      in queue order, and the next writer, if any, could not have been added. */
  method BuildBatchGroup(queue: seq<Writer>) returns (result: Batch, n: nat)
    requires queue != [] && queue[0].batch.Some?
    requires forall i :: 0 <= i < |queue| ==> queue[i].WellFormed()
    ensures Fits(queue, n)
    ensures n == |queue| || !Fits(queue, n + 1)
    ensures Holds(result, queue, n)
    ensures queue[0].batch.value.ops <= result.ops
    ensures exists starts :: InOrder(result.ops, queue, n, starts)
  {
    var first := queue[0];
    result := first.batch.value;
    var usesTmp := false;
    var size := first.batch.value.bytes;
    var maxSize := 0x10_0000;
    if size <= 0x2_0000 {
      maxSize := size + 0x2_0000;
    }
    n := 1;
    assert TotalBytes(queue, 1) == TotalBytes(queue, 0) + first.Bytes();
    assert AllOps(queue, 1) == AllOps(queue, 0) + first.Ops() == first.Ops();
    var full := false;
    while n < |queue| && !full
      invariant 1 <= n <= |queue|
      invariant forall i :: 0 <= i < n && queue[i].sync ==> first.sync
      invariant !full ==> size == TotalBytes(queue, n)
      invariant first.Bytes() <= TotalBytes(queue, n) <= Max(first.Bytes(), maxSize)
      invariant Holds(result, queue, n) && (!usesTmp ==> result == first.batch.value)
      invariant full ==> n < |queue| && !Fits(queue, n + 1)
      decreases |queue| - n, !full
    {
      var w := queue[n];
      if w.sync && !first.sync {
        assert !Fits(queue, n + 1);
        full := true;
      } else {
        HoldsOneMore(result, queue, n);
        if w.batch.Some? {
          size := size + w.batch.value.bytes;
          if size > maxSize {
            assert !Fits(queue, n + 1);
            full := true;
          } else {
            if !usesTmp {
              usesTmp := true;
              result := Append(Batch([], HEADER), first.batch.value);
            }
            result := Append(result, w.batch.value);
          }
        }
        if !full {
          n := n + 1;
        }
      }
    }
    GroupInOrder(result, queue, n);
  }
}
