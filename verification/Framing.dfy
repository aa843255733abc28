/** Cutting the bytes that arrive from a peer into messages. */
module Framing {
  import opened Options

  type Byte = nat

  const HEADER_SIZE: nat := 24

  /** What a header of 24 bytes says of the size of the data, if it can be read at all, and the limit on it. */
  datatype Format = Format(sizeOf: seq<Byte> -> Option<nat>, maxSize: nat) {
    predicate Accepts(hdr: seq<Byte>) {
      sizeOf(hdr).Some? && sizeOf(hdr).value <= maxSize
    }
  }

  /** A message as far as it has been received. */
  datatype Msg = Msg(hdr: seq<Byte>, inData: bool, size: nat, data: seq<Byte>) {
    predicate Complete() {
      inData && |data| == size
    }
  }

  const EMPTY: Msg := Msg([], false, 0, [])

  // ---- Byte by byte ----

  predicate NeedsNew(msgs: seq<Msg>) {
    msgs == [] || msgs[|msgs| - 1].Complete()
  }

  /** The messages with the current, incomplete one last. */
  function Opened(msgs: seq<Msg>): (r: seq<Msg>)
    ensures r != [] && !r[|r| - 1].Complete()
  {
    if NeedsNew(msgs) then msgs + [EMPTY] else msgs
  }

  /** One byte for an incomplete message; None if it completes a header that is refused. */
  function Take(f: Format, m: Msg, b: Byte): Option<Msg> {
    if m.inData then Some(m.(data := m.data + [b]))
    else if |m.hdr| + 1 < HEADER_SIZE then Some(m.(hdr := m.hdr + [b]))
    else if f.Accepts(m.hdr + [b]) then Some(m.(hdr := m.hdr + [b], inData := true, size := f.sizeOf(m.hdr + [b]).value))
    else None
  }

  function WithLast(msgs: seq<Msg>, m: Msg): seq<Msg>
    requires msgs != []
  {
    msgs[..|msgs| - 1] + [m]
  }

  function Step(f: Format, msgs: seq<Msg>, b: Byte): Option<seq<Msg>> {
    var open := Opened(msgs);
    match Take(f, open[|open| - 1], b)
    case None => None
    case Some(m) => Some(WithLast(open, m))
  }

  /** None is final: the connection is closed. */
  function StepIf(f: Format, msgs: Option<seq<Msg>>, b: Byte): Option<seq<Msg>> {
    if msgs.Some? then Step(f, msgs.value, b) else None
  }

  function Stepper(f: Format): (Option<seq<Msg>>, Byte) -> Option<seq<Msg>> {
    (msgs: Option<seq<Msg>>, b: Byte) => StepIf(f, msgs, b)
  }

  /** Folding a step over the first n elements. */
  function Fold<S, T>(step: (S, T) -> S, s: S, xs: seq<T>, n: nat): S
    requires n <= |xs|
  {
    if n == 0 then s else step(Fold(step, s, xs, n - 1), xs[n - 1])
  }

  /** The messages after some bytes, one at a time; None once a header is refused. */
  function Feed(f: Format, msgs: Option<seq<Msg>>, bytes: seq<Byte>): Option<seq<Msg>> {
    Fold(Stepper(f), msgs, bytes, |bytes|)
  }

  // ---- Any split gives the same ----

  lemma {:induction false} FoldPrefix<S, T>(step: (S, T) -> S, s: S, xs: seq<T>, ys: seq<T>, n: nat)
    requires n <= |xs| && n <= |ys| && forall i :: 0 <= i < n ==> xs[i] == ys[i]
    ensures Fold(step, s, xs, n) == Fold(step, s, ys, n)
    decreases n
  {
    if n > 0 {
      FoldPrefix(step, s, xs, ys, n - 1);
    }
  }

  lemma {:induction false} FoldSplit<S, T>(step: (S, T) -> S, s: S, xs: seq<T>, ys: seq<T>, n: nat)
    requires n <= |ys|
    ensures Fold(step, s, xs + ys, |xs| + n) == Fold(step, Fold(step, s, xs, |xs|), ys, n)
    decreases n
  {
    if n == 0 {
      FoldPrefix(step, s, xs, xs + ys, |xs|);
    } else {
      FoldSplit(step, s, xs, ys, n - 1);
      assert (xs + ys)[|xs| + n - 1] == ys[n - 1];
    }
  }

  lemma FeedSplit(f: Format, msgs: Option<seq<Msg>>, a: seq<Byte>, b: seq<Byte>)
    ensures Feed(f, msgs, a + b) == Feed(f, Feed(f, msgs, a), b)
  {
    FoldSplit(Stepper(f), msgs, a, b, |b|);
  }

  lemma FeedByte(f: Format, msgs: Option<seq<Msg>>, a: seq<Byte>, b: Byte)
    ensures Feed(f, msgs, a + [b]) == StepIf(f, Feed(f, msgs, a), b)
  {
    FeedSplit(f, msgs, a, [b]);
    var middle := Feed(f, msgs, a);
    assert Fold(Stepper(f), middle, [b], 1) == Stepper(f)(Fold(Stepper(f), middle, [b], 0), b);
  }

  function Concat(chunks: seq<seq<Byte>>, n: nat): seq<Byte>
    requires n <= |chunks|
  {
    if n == 0 then [] else Concat(chunks, n - 1) + chunks[n - 1]
  }

  /** Feeding the first n chunks one after the other. */
  function FeedAll(f: Format, msgs: Option<seq<Msg>>, chunks: seq<seq<Byte>>, n: nat): Option<seq<Msg>>
    requires n <= |chunks|
  {
    if n == 0 then msgs else Feed(f, FeedAll(f, msgs, chunks, n - 1), chunks[n - 1])
  }

  /** However a stream is cut into chunks, the verdict and the messages are those of the whole. */
  lemma {:induction false} ChunkingDoesNotMatter(f: Format, msgs: Option<seq<Msg>>, chunks: seq<seq<Byte>>, n: nat)
    requires n <= |chunks|
    ensures FeedAll(f, msgs, chunks, n) == Feed(f, msgs, Concat(chunks, n))
    decreases n
  {
    if n > 0 {
      ChunkingDoesNotMatter(f, msgs, chunks, n - 1);
      FeedSplit(f, msgs, Concat(chunks, n - 1), chunks[n - 1]);
    }
  }

  // ---- Nothing lost, nothing made up ----

  function Bytes(msgs: seq<Msg>, n: nat): seq<Byte>
    requires n <= |msgs|
  {
    if n == 0 then [] else Bytes(msgs, n - 1) + (msgs[n - 1].hdr + msgs[n - 1].data)
  }

  /** A message begun, as the format allows it. */
  predicate WellFormed(f: Format, m: Msg) {
    && 0 < |m.hdr| <= HEADER_SIZE && (m.inData <==> |m.hdr| == HEADER_SIZE)
    && if m.inData then f.Accepts(m.hdr) && m.size == f.sizeOf(m.hdr).value && |m.data| <= m.size
       else m.size == 0 && m.data == []
  }

  /** All messages are well formed, and only the last may be incomplete. */
  predicate Framed(f: Format, msgs: seq<Msg>) {
    && (forall i :: 0 <= i < |msgs| ==> WellFormed(f, msgs[i]))
    && (forall i :: 0 <= i < |msgs| - 1 ==> msgs[i].Complete())
  }

  lemma {:induction false} BytesPrefix(msgs: seq<Msg>, more: seq<Msg>, n: nat)
    requires n <= |msgs| && n <= |more| && forall i :: 0 <= i < n ==> msgs[i] == more[i]
    ensures Bytes(msgs, n) == Bytes(more, n)
    decreases n
  {
    if n > 0 {
      BytesPrefix(msgs, more, n - 1);
    }
  }

  lemma TakeKeepsFraming(f: Format, msgs: seq<Msg>, b: Byte)
    requires Framed(f, msgs) && Take(f, Opened(msgs)[|Opened(msgs)| - 1], b).Some?
    ensures var open := Opened(msgs);
            Framed(f, WithLast(open, Take(f, open[|open| - 1], b).value))
  {
  }

  lemma TakeAddsByte(f: Format, m: Msg, b: Byte)
    requires (!m.inData ==> m.data == []) && Take(f, m, b).Some?
    ensures var t := Take(f, m, b).value; t.hdr + t.data == (m.hdr + m.data) + [b]
  {
  }

  lemma LastAddsByte(open: seq<Msg>, t: Msg, b: Byte)
    requires open != [] && var m := open[|open| - 1]; t.hdr + t.data == (m.hdr + m.data) + [b]
    ensures Bytes(WithLast(open, t), |open|) == Bytes(open, |open|) + [b]
  {
    var m := open[|open| - 1];
    var before := Bytes(open, |open| - 1);
    BytesWithLast(open, t);
    assert Bytes(open, |open|) == before + (m.hdr + m.data);
    Associative(before, m.hdr + m.data, [b]);
  }

  lemma StepKeepsFraming(f: Format, msgs: seq<Msg>, b: Byte)
    requires Framed(f, msgs)
    ensures var after := Step(f, msgs, b);
            after.Some? ==> Framed(f, after.value) && Bytes(after.value, |after.value|) == Bytes(msgs, |msgs|) + [b]
  {
    if Step(f, msgs, b).Some? {
      TakeKeepsFraming(f, msgs, b);
      var open := Opened(msgs);
      var m := open[|open| - 1];
      TakeAddsByte(f, m, b);
      LastAddsByte(open, Take(f, m, b).value, b);
      BytesPrefix(msgs, Opened(msgs), |msgs|);
    }
  }

  lemma BytesWithLast(msgs: seq<Msg>, m: Msg)
    requires msgs != []
    ensures Bytes(WithLast(msgs, m), |msgs|) == Bytes(msgs, |msgs| - 1) + (m.hdr + m.data)
  {
    var after := WithLast(msgs, m);
    var k := |msgs| - 1;
    BytesPrefix(msgs, after, k);
    assert after[k] == m;
  }

  /** Accepted bytes are the headers and data of the messages, in order. */
  lemma {:induction false} FeedKeepsBytes(f: Format, msgs: seq<Msg>, bytes: seq<Byte>)
    requires Framed(f, msgs)
    ensures var after := Feed(f, Some(msgs), bytes);
            after.Some? ==> Framed(f, after.value) && Bytes(after.value, |after.value|) == Bytes(msgs, |msgs|) + bytes
    decreases |bytes|
  {
    if bytes != [] {
      var less, b := bytes[..|bytes| - 1], bytes[|bytes| - 1];
      FeedKeepsBytes(f, msgs, less);
      OneByteMore(f, msgs, less, b);
      assert less + [b] == bytes;
    }
  }

  lemma Associative<T>(a: seq<T>, b: seq<T>, c: seq<T>)
    ensures (a + b) + c == a + (b + c)
  {
  }

  lemma OneByteMore(f: Format, msgs: seq<Msg>, less: seq<Byte>, b: Byte)
    requires var before := Feed(f, Some(msgs), less);
             before.Some? ==> Framed(f, before.value) && Bytes(before.value, |before.value|) == Bytes(msgs, |msgs|) + less
    ensures var after := Feed(f, Some(msgs), less + [b]);
            after.Some? ==> Framed(f, after.value) && Bytes(after.value, |after.value|) == Bytes(msgs, |msgs|) + (less + [b])
  {
    FeedByte(f, Some(msgs), less, b);
    var before := Feed(f, Some(msgs), less);
    if before.Some? {
      StepKeepsFraming(f, before.value, b);
      Associative(Bytes(msgs, |msgs|), less, [b]);
    }
  }

  /** A message after its first i bytes. */
  function PartOf(m: Msg, i: nat): Msg
    requires |m.hdr| <= HEADER_SIZE && i <= |m.hdr| + |m.data|
  {
    if i < HEADER_SIZE && i <= |m.hdr| then Msg(m.hdr[..i], false, 0, [])
    else Msg(m.hdr, m.inData, m.size, m.data[..i - |m.hdr|])
  }

  lemma {:induction false} FeedOne(f: Format, front: seq<Msg>, m: Msg, i: nat)
    requires NeedsNew(front) && WellFormed(f, m) && 0 < i <= |m.hdr + m.data|
    ensures Feed(f, Some(front), (m.hdr + m.data)[..i]) == Some(front + [PartOf(m, i)])
    decreases i
  {
    var bytes := m.hdr + m.data;
    assert bytes[..i] == bytes[..i - 1] + [bytes[i - 1]];
    FeedByte(f, Some(front), bytes[..i - 1], bytes[i - 1]);
    if i == 1 {
      FirstByte(f, front, m);
    } else {
      FeedOne(f, front, m, i - 1);
      OneMoreByte(f, m, i - 1);
      var part := front + [PartOf(m, i - 1)];
      assert WithLast(part, PartOf(m, i)) == front + [PartOf(m, i)];
    }
  }

  lemma FirstByte(f: Format, front: seq<Msg>, m: Msg)
    requires NeedsNew(front) && WellFormed(f, m)
    ensures Step(f, front, (m.hdr + m.data)[0]) == Some(front + [PartOf(m, 1)])
  {
    var b := (m.hdr + m.data)[0];
    assert WithLast(front + [EMPTY], PartOf(m, 1)) == front + [PartOf(m, 1)];
    assert m.hdr[..1] == [b] == EMPTY.hdr + [b];
    assert Opened(front)[|front|] == EMPTY;
    assert Take(f, EMPTY, b) == Some(PartOf(m, 1));
  }

  lemma OneMoreByte(f: Format, m: Msg, i: nat)
    requires WellFormed(f, m) && 0 < i < |m.hdr + m.data|
    ensures !PartOf(m, i).Complete() && Take(f, PartOf(m, i), (m.hdr + m.data)[i]) == Some(PartOf(m, i + 1))
  {
    var b := (m.hdr + m.data)[i];
    if i < |m.hdr| {
      assert m.hdr[..i] + [b] == m.hdr[..i + 1];
      if i + 1 == HEADER_SIZE {
        assert m.hdr[..i + 1] == m.hdr;
        assert m.data[..0] == [];
      }
    } else {
      var k := i - |m.hdr|;
      assert m.data[..k] + [b] == m.data[..k + 1];
    }
  }

  lemma WholeMessage(f: Format, front: seq<Msg>, m: Msg)
    requires NeedsNew(front) && WellFormed(f, m)
    ensures Feed(f, Some(front), m.hdr + m.data) == Some(front + [m])
  {
    var bytes := m.hdr + m.data;
    FeedOne(f, front, m, |bytes|);
    assert bytes[..|bytes|] == bytes;
    assert m.hdr[..|m.hdr|] == m.hdr && m.data[..|m.data|] == m.data;
  }

  lemma FrontNeedsNew(f: Format, msgs: seq<Msg>, k: nat)
    requires Framed(f, msgs) && k < |msgs|
    ensures NeedsNew(msgs[..k]) && WellFormed(f, msgs[k])
  {
  }

  /** Framing is the only way to read the bytes: every framed list of messages is what its own bytes give. */
  lemma {:induction false} FramingIsUnique(f: Format, msgs: seq<Msg>, n: nat)
    requires Framed(f, msgs) && n <= |msgs|
    ensures Feed(f, Some([]), Bytes(msgs, n)) == Some(msgs[..n])
    decreases n
  {
    if n > 0 {
      var k := n - 1;
      FramingIsUnique(f, msgs, k);
      OneFurther(f, msgs, k, n);
    }
  }

  lemma OneFurther(f: Format, msgs: seq<Msg>, k: nat, n: nat)
    requires Framed(f, msgs) && k < n <= |msgs| && n == k + 1
    requires Feed(f, Some([]), Bytes(msgs, k)) == Some(msgs[..k])
    ensures Feed(f, Some([]), Bytes(msgs, n)) == Some(msgs[..n])
  {
    FrontNeedsNew(f, msgs, k);
    LastOfFront(msgs, k, n);
    OneMessageMore(f, msgs[..k], msgs[k], Bytes(msgs, k), Bytes(msgs, n), msgs[..n]);
  }

  lemma LastOfFront(msgs: seq<Msg>, k: nat, n: nat)
    requires k < n <= |msgs| && n == k + 1
    ensures Bytes(msgs, n) == Bytes(msgs, k) + (msgs[k].hdr + msgs[k].data)
    ensures msgs[..n] == msgs[..k] + [msgs[k]]
  {
  }

  lemma OneMessageMore(f: Format, front: seq<Msg>, m: Msg, before: seq<Byte>, bytes: seq<Byte>, msgs: seq<Msg>)
    requires NeedsNew(front) && WellFormed(f, m) && Feed(f, Some([]), before) == Some(front)
    requires bytes == before + (m.hdr + m.data) && msgs == front + [m]
    ensures Feed(f, Some([]), bytes) == Some(msgs)
  {
    WholeMessage(f, front, m);
    FeedSplit(f, Some([]), before, m.hdr + m.data);
  }

  // ---- Chunk by chunk ----

  lemma {:induction false} Closed(f: Format, bytes: seq<Byte>)
    ensures Feed(f, None, bytes) == None
    decreases |bytes|
  {
    if bytes != [] {
      var less, b := bytes[..|bytes| - 1], bytes[|bytes| - 1];
      assert bytes == less + [b];
      Closed(f, less);
      FeedByte(f, None, less, b);
    }
  }

  lemma LastStep(f: Format, front: seq<Msg>, m: Msg, b: Byte)
    requires !m.Complete()
    ensures Step(f, front + [m], b) == var t := Take(f, m, b); if t.Some? then Some(front + [t.value]) else None
  {
    var t := Take(f, m, b);
    assert t.Some? ==> WithLast(front + [m], t.value) == front + [t.value];
  }

  /** Bytes of the data of the current message. */
  lemma {:induction false} DataChunk(f: Format, front: seq<Msg>, m: Msg, chunk: seq<Byte>)
    requires m.inData && |m.data| + |chunk| <= m.size
    ensures Feed(f, Some(front + [m]), chunk) == Some(front + [m.(data := m.data + chunk)])
    decreases |chunk|
  {
    if chunk == [] {
      assert m.data + chunk == m.data;
    } else {
      var less, b := chunk[..|chunk| - 1], chunk[|chunk| - 1];
      assert chunk == less + [b];
      DataChunk(f, front, m, less);
      FeedByte(f, Some(front + [m]), less, b);
      LastStep(f, front, m.(data := m.data + less), b);
      assert (m.data + less) + [b] == m.data + chunk;
    }
  }

  /** Bytes of the header of the current message, but not the last. */
  lemma {:induction false} HeaderChunk(f: Format, front: seq<Msg>, m: Msg, chunk: seq<Byte>)
    requires !m.inData && |m.hdr| + |chunk| < HEADER_SIZE
    ensures Feed(f, Some(front + [m]), chunk) == Some(front + [m.(hdr := m.hdr + chunk)])
    decreases |chunk|
  {
    if chunk == [] {
      assert m.hdr + chunk == m.hdr;
    } else {
      var less, b := chunk[..|chunk| - 1], chunk[|chunk| - 1];
      assert chunk == less + [b];
      HeaderChunk(f, front, m, less);
      FeedByte(f, Some(front + [m]), less, b);
      LastStep(f, front, m.(hdr := m.hdr + less), b);
      assert (m.hdr + less) + [b] == m.hdr + chunk;
    }
  }

  function WithHeader(f: Format, hdr: seq<Byte>): Msg
    requires f.Accepts(hdr)
  {
    Msg(hdr, true, f.sizeOf(hdr).value, [])
  }

  /** The rest of the header of the current message. */
  lemma HeaderRest(f: Format, front: seq<Msg>, m: Msg, chunk: seq<Byte>)
    requires !m.inData && m.data == [] && |m.hdr| < HEADER_SIZE == |m.hdr| + |chunk|
    ensures Feed(f, Some(front + [m]), chunk)
         == if f.Accepts(m.hdr + chunk) then Some(front + [WithHeader(f, m.hdr + chunk)]) else None
  {
    var less, b := chunk[..|chunk| - 1], chunk[|chunk| - 1];
    assert chunk == less + [b];
    HeaderChunk(f, front, m, less);
    FeedByte(f, Some(front + [m]), less, b);
    LastStep(f, front, m.(hdr := m.hdr + less), b);
    assert (m.hdr + less) + [b] == m.hdr + chunk;
  }

  lemma OpenFirst(f: Format, msgs: seq<Msg>, bytes: seq<Byte>)
    requires bytes != []
    ensures Feed(f, Some(msgs), bytes) == Feed(f, Some(Opened(msgs)), bytes)
  {
    assert bytes == [bytes[0]] + bytes[1..];
    FeedSplit(f, Some(msgs), [bytes[0]], bytes[1..]);
    FeedSplit(f, Some(Opened(msgs)), [bytes[0]], bytes[1..]);
    FeedByte(f, Some(msgs), [], bytes[0]);
    FeedByte(f, Some(Opened(msgs)), [], bytes[0]);
    assert [] + [bytes[0]] == [bytes[0]];
  }

  // ---- One pass of the loop ----

  /** How many of the bytes at hand an incomplete message absorbs. */
  function Handled(m: Msg, pch: seq<Byte>): (n: nat)
    requires |m.hdr| <= HEADER_SIZE && |m.data| <= m.size
    ensures n <= |pch|
  {
    var remaining := if m.inData then m.size - |m.data| else HEADER_SIZE - |m.hdr|;
    if remaining < |pch| then remaining else |pch|
  }

  /** The message after absorbing them; None if that completes a header that is refused. */
  function Absorbed(f: Format, m: Msg, pch: seq<Byte>): Option<Msg>
    requires |m.hdr| <= HEADER_SIZE && |m.data| <= m.size
  {
    var some := pch[..Handled(m, pch)];
    if m.inData then Some(m.(data := m.data + some))
    else if |m.hdr + some| < HEADER_SIZE then Some(m.(hdr := m.hdr + some))
    else if f.Accepts(m.hdr + some) then Some(WithHeader(f, m.hdr + some))
    else None
  }

  predicate Open(m: Msg) {
    if m.inData then |m.data| < m.size && |m.hdr| == HEADER_SIZE else |m.hdr| < HEADER_SIZE && m.data == [] && m.size == 0
  }

  lemma AbsorbSome(f: Format, front: seq<Msg>, m: Msg, pch: seq<Byte>)
    requires Open(m) && pch != []
    ensures 0 < Handled(m, pch)
    ensures var t := Absorbed(f, m, pch);
            Feed(f, Some(front + [m]), pch[..Handled(m, pch)]) == if t.Some? then Some(front + [t.value]) else None
  {
    var n := Handled(m, pch);
    if m.inData {
      DataChunk(f, front, m, pch[..n]);
    } else if |m.hdr| + n < HEADER_SIZE {
      HeaderChunk(f, front, m, pch[..n]);
    } else {
      HeaderRest(f, front, m, pch[..n]);
    }
  }

  /** One pass of the loop leaves the rest of the bytes to the messages it makes. */
  lemma PassIsFeed(f: Format, msgs: seq<Msg>, pch: seq<Byte>)
    requires pch != [] && Open(Opened(msgs)[|Opened(msgs)| - 1])
    ensures var open := Opened(msgs);
            var m := open[|open| - 1];
            var t := Absorbed(f, m, pch);
            Feed(f, Some(msgs), pch) == if t.Some? then Feed(f, Some(WithLast(open, t.value)), pch[Handled(m, pch)..]) else None
  {
    var open := Opened(msgs);
    var front, m := open[..|open| - 1], open[|open| - 1];
    var n := Handled(m, pch);
    OpenFirst(f, msgs, pch);
    assert open == front + [m] && pch == pch[..n] + pch[n..];
    FeedSplit(f, Some(open), pch[..n], pch[n..]);
    AbsorbSome(f, front, m, pch);
    Closed(f, pch[n..]);
  }

  /** A message being received, in its buffers. */
  class CNetMessage {
    var inData: bool          // parsing the header, or the data
    var hdrbuf: seq<Byte>     // partially received header
    var nHdrPos: nat
    var nMessageSize: nat     // from the header
    var vRecv: seq<Byte>      // received message data
    var nDataPos: nat

    ghost predicate Valid() reads this {
      && |hdrbuf| == HEADER_SIZE && (if inData then nHdrPos == HEADER_SIZE else nHdrPos < HEADER_SIZE && nMessageSize == 0 && nDataPos == 0)
      && nDataPos <= nMessageSize == |vRecv|
    }

    ghost function State(): (m: Msg)
      reads this
      requires Valid()
      ensures m.Complete() || Open(m)
    {
      Msg(hdrbuf[..nHdrPos], inData, nMessageSize, vRecv[..nDataPos])
    }

    constructor ()
      ensures Valid() && State() == EMPTY
    {
      inData := false;
      hdrbuf := seq(HEADER_SIZE, i => 0);
      nHdrPos, nMessageSize, nDataPos := 0, 0, 0;
      vRecv := [];
    }

    predicate Complete()
      reads this
      requires Valid()
      ensures Complete() == State().Complete()
    {
      inData && nDataPos == nMessageSize
    }

    /** Absorbs bytes of the header; -1 if it is refused. */
    method ReadHeader(f: Format, pch: seq<Byte>) returns (handled: int)
      requires Valid() && !inData
      modifies this
      ensures var t := Absorbed(f, old(State()), pch);
              if t.Some? then handled == Handled(old(State()), pch) && Valid() && State() == t.value else handled == -1
      ensures var need := 24 - old(nHdrPos);
              if |pch| < need then handled == |pch| && !inData
              else var size := f.sizeOf(old(hdrbuf[..nHdrPos]) + pch[..need]);
                   if size.None? || size.value > f.maxSize then handled == -1 else handled == need && inData && nMessageSize == size.value
    {
      var nRemaining := HEADER_SIZE - nHdrPos;
      var nCopy := if nRemaining < |pch| then nRemaining else |pch|;
      ghost var before := hdrbuf[..nHdrPos];
      hdrbuf := hdrbuf[..nHdrPos] + pch[..nCopy] + hdrbuf[nHdrPos + nCopy..];
      nHdrPos := nHdrPos + nCopy;
      assert hdrbuf[..nHdrPos] == before + pch[..nCopy];
      if nHdrPos < HEADER_SIZE {
        return nCopy;
      }
      assert hdrbuf == before + pch[..nCopy];
      var size := f.sizeOf(hdrbuf);
      if size.None? {
        return -1;
      }
      if size.value > f.maxSize {
        return -1;
      }
      nMessageSize := size.value;
      inData := true;
      vRecv := seq(nMessageSize, i => 0);
      return nCopy;
    }

    /** Absorbs bytes of the data. */
    method ReadData(f: Format, pch: seq<Byte>) returns (handled: int)
      requires Valid() && inData
      modifies this
      ensures handled == Handled(old(State()), pch) && Valid() && Absorbed(f, old(State()), pch) == Some(State())
    {
      var nRemaining := nMessageSize - nDataPos;
      var nCopy := if nRemaining < |pch| then nRemaining else |pch|;
      ghost var before := vRecv[..nDataPos];
      vRecv := vRecv[..nDataPos] + pch[..nCopy] + vRecv[nDataPos + nCopy..];
      nDataPos := nDataPos + nCopy;
      assert vRecv[..nDataPos] == before + pch[..nCopy];
      return nCopy;
    }
  }

  class CNode {
    var vRecvMsg: seq<CNetMessage>
    ghost var messages: seq<Msg>      // what they hold
    ghost var repr: set<CNetMessage>

    ghost predicate Valid() reads this, repr {
      && |messages| == |vRecvMsg| && (forall i :: 0 <= i < |vRecvMsg| ==> vRecvMsg[i] in repr)
      && (forall i :: 0 <= i < |vRecvMsg| ==> vRecvMsg[i].Valid() && vRecvMsg[i].State() == messages[i])
      && (forall i, j :: 0 <= i < j < |vRecvMsg| ==> vRecvMsg[i] != vRecvMsg[j])
    }

    constructor ()
      ensures Valid() && messages == [] && fresh(repr)
    {
      vRecvMsg, messages, repr := [], [], {};
    }

    /** Opens a new message unless the last one is still incomplete. */
    method OpenMessage()
      requires Valid()
      modifies this
      ensures Valid() && messages == Opened(old(messages)) && Open(messages[|messages| - 1])
      ensures fresh(repr - old(repr))
    {
      var needed := |vRecvMsg| == 0;
      if !needed {
        needed := vRecvMsg[|vRecvMsg| - 1].Complete();
      }
      if needed {
        var msg := new CNetMessage();
        vRecvMsg := vRecvMsg + [msg];
        messages := messages + [EMPTY];
        repr := repr + {msg};
      }
    }

    /** Lets the current message absorb what it can of the bytes; -1 if its header is refused. */
    method Absorb(f: Format, pch: seq<Byte>) returns (handled: int)
      requires Valid() && messages != [] && Open(messages[|messages| - 1])
      modifies `messages, repr
      ensures var m := old(messages)[|old(messages)| - 1];
              var t := Absorbed(f, m, pch);
              if t.Some? then handled == Handled(m, pch) && Valid() && messages == WithLast(old(messages), t.value)
              else handled == -1
    {
      var msg := vRecvMsg[|vRecvMsg| - 1];
      if !msg.inData {
        handled := msg.ReadHeader(f, pch);
      } else {
        handled := msg.ReadData(f, pch);
      }
      if handled >= 0 {
        messages := WithLast(messages, msg.State());
      }
    }

    /** One pass of the loop. */
    method Pass(f: Format, pch: seq<Byte>) returns (handled: int)
      requires Valid() && pch != []
      modifies this, repr
      ensures handled < 0 ==> Feed(f, Some(old(messages)), pch) == None
      ensures handled >= 0 ==> 0 < handled <= |pch| && Valid()
                               && Feed(f, Some(old(messages)), pch) == Feed(f, Some(messages), pch[handled..])
      ensures fresh(repr - old(repr))
    {
      OpenMessage();
      handled := Absorb(f, pch);
      PassIsFeed(f, old(messages), pch);
    }

    /** Receives a chunk of bytes: the same as receiving them one by one. */
    method ReceiveMsgBytes(f: Format, pch: seq<Byte>) returns (ok: bool)
      requires Valid()
      modifies this, repr
      ensures ok <==> Feed(f, Some(old(messages)), pch).Some?
      ensures ok ==> Valid() && Feed(f, Some(old(messages)), pch) == Some(messages)
      ensures fresh(repr - old(repr))
    {
      var p := 0;
      ghost var all := Feed(f, Some(messages), pch);
      assert pch[p..] == pch;
      while p < |pch|
        invariant 0 <= p <= |pch| && Valid() && fresh(repr - old(repr))
        invariant all == Feed(f, Some(messages), pch[p..])
        decreases |pch| - p
      {
        var handled := Pass(f, pch[p..]);
        if handled < 0 {
          return false;
        }
        assert pch[p..][handled..] == pch[p + handled..];
        p := p + handled;
      }
      return true;
    }
  }
}
