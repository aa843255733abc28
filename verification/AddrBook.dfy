/** The address manager's tables as a value, and the invariant that ties them together. */
module AddrBook {

  type NetAddr = string

  datatype Service = Service(ip: NetAddr, port: nat)

  /** What is known of one address. */
  datatype Record = Record(
    addr: Service, services: bv64, time: int, lastTry: int, source: NetAddr, lastSuccess: int, attempts: nat)

  /** A table entry (CAddrInfo): the record and the memory-only fields that place it in the tables. */
  datatype Info = Info(rec: Record, refCount: int, inTried: bool, randomPos: int)

  const TRIED_BUCKET_COUNT: nat := 64
  const TRIED_BUCKET_SIZE: nat := 64
  const NEW_BUCKET_COUNT: nat := 256
  const NEW_BUCKET_SIZE: nat := 64
  const NEW_BUCKETS_PER_ADDRESS: nat := 4

  /** The keyed hashes that choose buckets: of an address, and of an address and who told us of it. */
  datatype Hashes = Hashes(ofAddress: Service -> nat, ofSource: (NetAddr, NetAddr) -> nat) {
    function TriedBucket(a: Service): nat { ofAddress(a) % TRIED_BUCKET_COUNT }
    function NewBucket(ip: NetAddr, source: NetAddr): nat { ofSource(ip, source) % NEW_BUCKET_COUNT }
  }

  datatype Book = Book(
    idCount: nat,
    info: map<nat, Info>,        // by id
    addr: map<NetAddr, nat>,     // id of an address
    random: seq<nat>,            // all ids in random order
    tried: seq<seq<nat>>,        // buckets
    news: seq<set<nat>>,        // the "new" buckets
    nTried: int,
    nNew: int)

  function Least(s: set<nat>): (m: nat)
    requires s != {}
    ensures m in s && forall j :: j in s ==> m <= j
  {
    LeastExists(s);
    var m :| m in s && forall j :: j in s ==> m <= j;
    m
  }

  lemma LeastExists(s: set<nat>)
    requires s != {}
    ensures exists m :: m in s && forall j :: j in s ==> m <= j
  {
    var x :| x in s;
    if forall j :: j in s ==> x <= j {
    } else {
      var j :| j in s && j < x;
      assert j in s - {x};
      LeastExists(s - {x});
      var m :| m in s - {x} && forall j :: j in s - {x} ==> m <= j;
      forall k | k in s ensures m <= k {
        assert k == x || k in s - {x};
      }
    }
  }

  /** In how many of the first n new buckets an id is. */
  function Refs(news: seq<set<nat>>, n: nat, id: nat): nat
    requires n <= |news|
  {
    if n == 0 then 0 else Refs(news, n - 1, id) + if id in news[n - 1] then 1 else 0
  }

  function TriedIds(info: map<nat, Info>): set<nat> {
    set id | id in info && info[id].inTried
  }

  /** vRandom and nRandomPos are inverse bijections. */
  ghost predicate RandomOk(info: map<nat, Info>, random: seq<nat>) {
    && |random| == |info|
    && (forall id :: id in info ==> 0 <= info[id].randomPos < |random| && random[info[id].randomPos] == id)
    && (forall p :: 0 <= p < |random| ==> random[p] in info && info[random[p]].randomPos == p)
  }

  /** mapAddr inverts mapInfo. */
  ghost predicate AddrOk(info: map<nat, Info>, addr: map<NetAddr, nat>) {
    && (forall id :: id in info ==> info[id].rec.addr.ip in addr && addr[info[id].rec.addr.ip] == id)
    && (forall a :: a in addr ==> addr[a] in info && info[addr[a]].rec.addr.ip == a)
  }

  /** The new buckets hold untried ids, at most 64 each; nRefCount says in how many an id is. The id in x, if any,
      has been counted once more than that: it is about to be inserted. */
  ghost predicate NewOk(info: map<nat, Info>, news: seq<set<nat>>, x: set<nat>) {
    && |news| == NEW_BUCKET_COUNT
    && (forall u :: 0 <= u < |news| ==> |news[u]| <= NEW_BUCKET_SIZE)
    && (forall u, id :: 0 <= u < |news| && id in news[u] ==> id in info)
    && (forall id :: id in info ==> RefCountOk(info[id], Refs(news, |news|, id) + if id in x then 1 else 0))
  }

  predicate RefCountOk(i: Info, refs: nat) {
    && i.refCount == refs
    && if i.inTried then refs == 0 else 1 <= refs <= NEW_BUCKETS_PER_ADDRESS
  }

  predicate NoDuplicates(s: seq<nat>) {
    forall i, j :: 0 <= i < j < |s| ==> s[i] != s[j]
  }

  /** Each tried id is once in the tried bucket its address hashes to; buckets hold at most 64. */
  ghost predicate TriedOk(h: Hashes, info: map<nat, Info>, tried: seq<seq<nat>>) {
    && |tried| == TRIED_BUCKET_COUNT
    && (forall k :: 0 <= k < |tried| ==> |tried[k]| <= TRIED_BUCKET_SIZE && NoDuplicates(tried[k]))
    && (forall k, id :: 0 <= k < |tried| ==>
          (id in tried[k] <==> id in info && info[id].inTried && h.TriedBucket(info[id].rec.addr) == k))
  }

  predicate TimeOk(i: Info) {
    i.rec.lastTry >= 0 && i.rec.lastSuccess >= 0 && (i.inTried ==> i.rec.lastSuccess != 0)
  }

  ghost predicate TimesOk(info: map<nat, Info>) {
    forall id :: id in info ==> TimeOk(info[id])
  }

  ghost predicate CountsOk(b: Book) {
    && (forall id :: id in b.info ==> id < b.idCount)
    && b.nTried == |TriedIds(b.info)|
    && b.nTried + b.nNew == |b.info|
  }

  ghost predicate InvBut(h: Hashes, b: Book, x: set<nat>) {
    && RandomOk(b.info, b.random) && AddrOk(b.info, b.addr) && NewOk(b.info, b.news, x)
    && TriedOk(h, b.info, b.tried) && TimesOk(b.info) && CountsOk(b)
  }

  ghost predicate Inv(h: Hashes, b: Book) {
    InvBut(h, b, {})
  }

  /** The invariant in numbers. */
  lemma TablesInNumbers(h: Hashes, b: Book)
    requires Inv(h, b)
    ensures |b.tried| == 64 && forall k :: 0 <= k < 64 ==> |b.tried[k]| <= 64
    ensures |b.news| == 256 && forall u :: 0 <= u < 256 ==> |b.news[u]| <= 64
    ensures forall id :: id in b.info ==> if b.info[id].inTried then b.info[id].refCount == 0 else 1 <= b.info[id].refCount <= 4
    ensures forall id :: id in b.info && b.info[id].inTried ==> id in b.tried[h.ofAddress(b.info[id].rec.addr) % 64]
  {
    forall id | id in b.info
      ensures if b.info[id].inTried then b.info[id].refCount == 0 else 1 <= b.info[id].refCount <= 4
    {
      assert RefCountOk(b.info[id], Refs(b.news, |b.news|, id) + 0);
    }
  }

  // ---- Refs ----

  lemma {:induction false} RefsOfChange(news: seq<set<nat>>, u: nat, S: set<nat>, n: nat, id: nat)
    requires u < |news| && n <= |news|
    ensures Refs(news[u := S], n, id)
         == Refs(news, n, id) + if u < n then (if id in S then 1 else 0) - (if id in news[u] then 1 else 0) else 0
  {
    if n > 0 {
      RefsOfChange(news, u, S, n - 1, id);
    }
  }

  lemma {:induction false} RefsPositive(news: seq<set<nat>>, n: nat, id: nat)
    requires n <= |news|
    ensures Refs(news, n, id) > 0 <==> exists u :: 0 <= u < n && id in news[u]
  {
    if n > 0 {
      RefsPositive(news, n - 1, id);
    }
  }

  // ---- What each part of the invariant depends on ----

  lemma RandomFrame(info: map<nat, Info>, other: map<nat, Info>, random: seq<nat>)
    requires RandomOk(info, random) && info.Keys == other.Keys
    requires forall id :: id in info ==> other[id].randomPos == info[id].randomPos
    ensures RandomOk(other, random)
  {
    assert |other| == |other.Keys| == |info.Keys| == |info|;
  }

  lemma AddrFrame(info: map<nat, Info>, other: map<nat, Info>, addr: map<NetAddr, nat>)
    requires AddrOk(info, addr) && info.Keys == other.Keys
    requires forall id :: id in info ==> other[id].rec.addr == info[id].rec.addr
    ensures AddrOk(other, addr)
  {
  }

  lemma NewFrame(info: map<nat, Info>, other: map<nat, Info>, news: seq<set<nat>>, x: set<nat>)
    requires NewOk(info, news, x) && info.Keys == other.Keys
    requires forall id :: id in info ==> other[id].refCount == info[id].refCount && other[id].inTried == info[id].inTried
    ensures NewOk(other, news, x)
  {
    forall id | id in other
      ensures RefCountOk(other[id], Refs(news, |news|, id) + if id in x then 1 else 0)
    {
      assert RefCountOk(info[id], Refs(news, |news|, id) + if id in x then 1 else 0);
    }
  }

  lemma TriedFrame(h: Hashes, info: map<nat, Info>, other: map<nat, Info>, tried: seq<seq<nat>>)
    requires TriedOk(h, info, tried) && info.Keys == other.Keys
    requires forall id :: id in info ==> other[id].rec.addr == info[id].rec.addr && other[id].inTried == info[id].inTried
    ensures TriedOk(h, other, tried)
  {
  }

  lemma TimesUpdate(info: map<nat, Info>, id: nat, j: Info)
    requires TimesOk(info) && TimeOk(j)
    ensures TimesOk(info[id := j])
  {
  }

  lemma CountsFrame(b: Book, other: map<nat, Info>)
    requires CountsOk(b) && b.info.Keys == other.Keys
    requires forall id :: id in b.info ==> other[id].inTried == b.info[id].inTried
    ensures CountsOk(b.(info := other))
  {
    assert |other| == |other.Keys| == |b.info.Keys| == |b.info|;
    assert TriedIds(other) == TriedIds(b.info);
  }

  // The same for a single changed entry.

  lemma RandomUpdate(info: map<nat, Info>, random: seq<nat>, id: nat, i: Info)
    requires RandomOk(info, random) && id in info && i.randomPos == info[id].randomPos
    ensures RandomOk(info[id := i], random)
  {
    assert info[id := i].Keys == info.Keys;
    RandomFrame(info, info[id := i], random);
  }

  lemma AddrUpdate(info: map<nat, Info>, addr: map<NetAddr, nat>, id: nat, i: Info)
    requires AddrOk(info, addr) && id in info && i.rec.addr == info[id].rec.addr
    ensures AddrOk(info[id := i], addr)
  {
    assert info[id := i].Keys == info.Keys;
    AddrFrame(info, info[id := i], addr);
  }

  lemma NewUpdate(info: map<nat, Info>, news: seq<set<nat>>, x: set<nat>, id: nat, i: Info)
    requires NewOk(info, news, x) && id in info && i.refCount == info[id].refCount && i.inTried == info[id].inTried
    ensures NewOk(info[id := i], news, x)
  {
    assert info[id := i].Keys == info.Keys;
    NewFrame(info, info[id := i], news, x);
  }

  lemma TriedUpdate(h: Hashes, info: map<nat, Info>, tried: seq<seq<nat>>, id: nat, i: Info)
    requires TriedOk(h, info, tried) && id in info && i.rec.addr == info[id].rec.addr && i.inTried == info[id].inTried
    ensures TriedOk(h, info[id := i], tried)
  {
    assert info[id := i].Keys == info.Keys;
    TriedFrame(h, info, info[id := i], tried);
  }

  lemma CountsUpdate(b: Book, id: nat, i: Info)
    requires CountsOk(b) && id in b.info && i.inTried == b.info[id].inTried
    ensures CountsOk(b.(info := b.info[id := i]))
  {
    assert b.info[id := i].Keys == b.info.Keys;
    CountsFrame(b, b.info[id := i]);
  }

  // ---- Changing one entry without moving it ----

  /** The fields an operation may touch without affecting any index. */
  predicate SamePlace(i: Info, j: Info) {
    i.rec.addr == j.rec.addr && i.refCount == j.refCount && i.inTried == j.inTried && i.randomPos == j.randomPos
  }

  lemma UpdateKeepsInv(h: Hashes, b: Book, x: set<nat>, id: nat, j: Info)
    requires InvBut(h, b, x) && id in b.info && SamePlace(b.info[id], j)
    requires TimeOk(j)
    ensures InvBut(h, b.(info := b.info[id := j]), x)
  {
    RandomUpdate(b.info, b.random, id, j);
    AddrUpdate(b.info, b.addr, id, j);
    TriedUpdate(h, b.info, b.tried, id, j);
    CountsUpdate(b, id, j);
    NewUpdate(b.info, b.news, x, id, j);
    TimesUpdate(b.info, id, j);
  }

  // ---- A new entry ----

  function CountRef(b: Book, id: nat): Book
    requires id in b.info
  {
    b.(info := b.info[id := b.info[id].(refCount := b.info[id].refCount + 1)])
  }

  lemma CreateRandom(info: map<nat, Info>, random: seq<nat>, id: nat, i: Info)
    requires RandomOk(info, random) && id !in info && i.randomPos == |random|
    ensures RandomOk(info[id := i], random + [id])
  {
    assert info[id := i].Keys == info.Keys + {id};
    assert |info[id := i]| == |info| + 1;
  }

  lemma CreateAddr(info: map<nat, Info>, addr: map<NetAddr, nat>, id: nat, i: Info)
    requires AddrOk(info, addr) && id !in info && i.rec.addr.ip !in addr
    ensures AddrOk(info[id := i], addr[i.rec.addr.ip := id])
  {
  }

  lemma CreateNew(info: map<nat, Info>, news: seq<set<nat>>, id: nat, i: Info)
    requires NewOk(info, news, {}) && id !in info && i.refCount == 1 && !i.inTried
    ensures NewOk(info[id := i], news, {id})
  {
    RefsPositive(news, |news|, id);
  }

  lemma CreateTried(h: Hashes, info: map<nat, Info>, tried: seq<seq<nat>>, id: nat, i: Info)
    requires TriedOk(h, info, tried) && id !in info && !i.inTried
    ensures TriedOk(h, info[id := i], tried)
  {
  }

  lemma CreateCounts(b: Book, i: Info)
    requires CountsOk(b) && !i.inTried
    ensures CountsOk(b.(idCount := b.idCount + 1, info := b.info[b.idCount := i], nNew := b.nNew + 1))
  {
    var info := b.info[b.idCount := i];
    assert b.idCount !in b.info;
    assert info.Keys == b.info.Keys + {b.idCount};
    assert |info| == |b.info| + 1;
    assert TriedIds(info) == TriedIds(b.info);
  }

  /** A new entry, counted among the new ones and about to go into its first bucket. */
  lemma CreateKeepsInv(h: Hashes, b: Book, i: Info)
    requires Inv(h, b) && i.rec.addr.ip !in b.addr && i.refCount == 1 && !i.inTried && i.randomPos == |b.random| && TimeOk(i)
    ensures InvBut(h, b.(idCount := b.idCount + 1, info := b.info[b.idCount := i], addr := b.addr[i.rec.addr.ip := b.idCount],
                         random := b.random + [b.idCount], nNew := b.nNew + 1), {b.idCount})
  {
    var id := b.idCount;
    assert id !in b.info by { assert CountsOk(b); }
    CreateRandom(b.info, b.random, id, i);
    CreateAddr(b.info, b.addr, id, i);
    CreateNew(b.info, b.news, id, i);
    CreateTried(h, b.info, b.tried, id, i);
    CreateCounts(b, i);
    TimesUpdate(b.info, id, i);
  }

  lemma CountRefNew(info: map<nat, Info>, other: map<nat, Info>, news: seq<set<nat>>, id: nat)
    requires NewOk(info, news, {}) && id in info && !info[id].inTried && info[id].refCount < NEW_BUCKETS_PER_ADDRESS
    requires other == info[id := info[id].(refCount := info[id].refCount + 1)]
    ensures NewOk(other, news, {id})
  {
  }

  lemma RefCountElsewhere(h: Hashes, b: Book, id: nat, i: Info)
    requires RandomOk(b.info, b.random) && AddrOk(b.info, b.addr) && TriedOk(h, b.info, b.tried) && CountsOk(b) && TimesOk(b.info)
    requires id in b.info && i == b.info[id].(refCount := i.refCount)
    ensures var c := b.(info := b.info[id := i]);
            && RandomOk(c.info, c.random) && AddrOk(c.info, c.addr) && TriedOk(h, c.info, c.tried)
            && CountsOk(c) && TimesOk(c.info)
  {
    RandomUpdate(b.info, b.random, id, i);
    AddrUpdate(b.info, b.addr, id, i);
    TriedUpdate(h, b.info, b.tried, id, i);
    CountsUpdate(b, id, i);
    TimesUpdate(b.info, id, i);
  }

  /** One more reference to an entry that is already in some new bucket. */
  lemma CountRefKeepsInv(h: Hashes, b: Book, id: nat)
    requires Inv(h, b) && id in b.info && !b.info[id].inTried && b.info[id].refCount < NEW_BUCKETS_PER_ADDRESS
    ensures InvBut(h, CountRef(b, id), {id})
  {
    var c := CountRef(b, id);
    assert NewOk(c.info, c.news, {id}) by {
      CountRefNew(b.info, c.info, b.news, id);
    }
    RefCountElsewhere(h, b, id, c.info[id]);
  }

  function Insert(b: Book, u: nat, id: nat): Book
    requires u < |b.news|
  {
    b.(news := b.news[u := b.news[u] + {id}])
  }

  lemma InsertNew(info: map<nat, Info>, news: seq<set<nat>>, u: nat, id: nat)
    requires NewOk(info, news, {id}) && id in info && u < |news| && id !in news[u] && |news[u]| < NEW_BUCKET_SIZE
    ensures NewOk(info, news[u := news[u] + {id}], {})
  {
    var S := news[u] + {id};
    forall j | j in info
      ensures Refs(news[u := S], |news|, j) == Refs(news, |news|, j) + if j == id then 1 else 0
    {
      RefsOfChange(news, u, S, |news|, j);
    }
  }

  lemma InsertKeepsInv(h: Hashes, b: Book, u: nat, id: nat)
    requires InvBut(h, b, {id}) && id in b.info && u < |b.news| && id !in b.news[u] && |b.news[u]| < NEW_BUCKET_SIZE
    ensures Inv(h, Insert(b, u, id))
  {
    InsertNew(b.info, b.news, u, id);
  }

  // ---- Swapping two positions of vRandom ----

  function SwapInfo(info: map<nat, Info>, random: seq<nat>, p: nat, q: nat): map<nat, Info>
    requires p < |random| && q < |random| && random[p] in info && random[q] in info
  {
    if p == q then info else
      var one := info[random[p] := info[random[p]].(randomPos := q)];
      one[random[q] := one[random[q]].(randomPos := p)]
  }

  function SwapRandom(random: seq<nat>, p: nat, q: nat): seq<nat>
    requires p < |random| && q < |random|
  {
    random[p := random[q]][q := random[p]]
  }

  function SwappedPosition(info: map<nat, Info>, random: seq<nat>, p: nat, q: nat, id: nat): int
    requires p < |random| && q < |random| && id in info
  {
    if id == random[q] then p else if id == random[p] then q else info[id].randomPos
  }

  lemma SwapFacts(info: map<nat, Info>, random: seq<nat>, p: nat, q: nat)
    requires p < |random| && q < |random| && random[p] in info && random[q] in info
    ensures SwapInfo(info, random, p, q).Keys == info.Keys
    ensures forall id :: id in info ==> SwapInfo(info, random, p, q)[id] == info[id].(randomPos := SwapInfo(info, random, p, q)[id].randomPos)
    ensures p != q ==> forall id :: id in info ==>
              SwapInfo(info, random, p, q)[id].randomPos == SwappedPosition(info, random, p, q, id)
  {
  }

  lemma SwapKeepsRandom(info: map<nat, Info>, random: seq<nat>, p: nat, q: nat)
    requires RandomOk(info, random) && p < |random| && q < |random|
    ensures RandomOk(SwapInfo(info, random, p, q), SwapRandom(random, p, q))
    ensures SwapInfo(info, random, p, q).Keys == info.Keys
    ensures forall id :: id in info ==> SwapInfo(info, random, p, q)[id] == info[id].(randomPos := SwapInfo(info, random, p, q)[id].randomPos)
  {
    SwapFacts(info, random, p, q);
    if p == q {
      assert SwapRandom(random, p, q) == random;
    } else {
      SwappedRandom(info, SwapInfo(info, random, p, q), random, p, q);
    }
  }

  lemma SwappedRandom(info: map<nat, Info>, other: map<nat, Info>, random: seq<nat>, p: nat, q: nat)
    requires RandomOk(info, random) && p < |random| && q < |random| && p != q && other.Keys == info.Keys
    requires forall id :: id in info ==> other[id].randomPos == SwappedPosition(info, random, p, q, id)
    ensures RandomOk(other, SwapRandom(random, p, q))
  {
    assert |other| == |other.Keys| == |info.Keys| == |info|;
  }

  lemma TimesFrame(info: map<nat, Info>, other: map<nat, Info>)
    requires TimesOk(info) && info.Keys == other.Keys
    requires forall id :: id in info ==> other[id] == info[id].(randomPos := other[id].randomPos)
    ensures TimesOk(other)
  {
    forall id | id in other ensures TimeOk(other[id]) {
      assert TimeOk(info[id]);
    }
  }

  // ---- Taking an id out of a new bucket ----

  /** Deleting an entry: it is swapped to the end of vRandom and popped, and forgotten everywhere. */
  function ForgetInfo(info: map<nat, Info>, random: seq<nat>, id: nat): map<nat, Info>
    requires RandomOk(info, random) && id in info
  {
    SwapInfo(info, random, info[id].randomPos, |random| - 1) - {id}
  }

  function ForgetPosition(info: map<nat, Info>, random: seq<nat>, id: nat): seq<nat>
    requires RandomOk(info, random) && id in info
  {
    SwapRandom(random, info[id].randomPos, |random| - 1)[..|random| - 1]
  }

  function Forget(b: Book, id: nat): Book
    requires RandomOk(b.info, b.random) && id in b.info
  {
    b.(info := ForgetInfo(b.info, b.random, id), addr := b.addr - {b.info[id].rec.addr.ip},
       random := ForgetPosition(b.info, b.random, id), nNew := b.nNew - 1)
  }

  /** One reference less; the last one takes the entry with it. */
  function Drop(b: Book, u: nat, id: nat): Book
    requires RandomOk(b.info, b.random) && id in b.info && u < |b.news|
  {
    (if b.info[id].refCount == 1 then Forget(b, id)
     else b.(info := b.info[id := b.info[id].(refCount := b.info[id].refCount - 1)]))
    .(news := b.news[u := b.news[u] - {id}])
  }

  /** What forgetting an entry leaves: the other entries, one of them moved within vRandom at most. */
  lemma ForgetFacts(info: map<nat, Info>, random: seq<nat>, id: nat)
    requires RandomOk(info, random) && id in info
    ensures ForgetInfo(info, random, id).Keys == info.Keys - {id}
    ensures forall j :: j in ForgetInfo(info, random, id) ==>
              ForgetInfo(info, random, id)[j] == info[j].(randomPos := ForgetInfo(info, random, id)[j].randomPos)
  {
  }

  lemma ForgetRandom(info: map<nat, Info>, random: seq<nat>, id: nat)
    requires RandomOk(info, random) && id in info
    ensures RandomOk(ForgetInfo(info, random, id), ForgetPosition(info, random, id))
  {
    var p, q := info[id].randomPos, |random| - 1;
    SwapKeepsRandom(info, random, p, q);
    LastRandom(SwapInfo(info, random, p, q), SwapRandom(random, p, q), id);
  }

  /** The entry at the last position can be popped. */
  lemma LastRandom(info: map<nat, Info>, random: seq<nat>, id: nat)
    requires RandomOk(info, random) && random != [] && random[|random| - 1] == id
    ensures RandomOk(info - {id}, random[..|random| - 1])
  {
    var less := info - {id};
    assert less.Keys == info.Keys - {id};
    assert |less| == |less.Keys| == |info.Keys| - 1 == |info| - 1;
  }

  lemma ForgetAddr(info: map<nat, Info>, other: map<nat, Info>, addr: map<NetAddr, nat>, id: nat)
    requires AddrOk(info, addr) && id in info && other.Keys == info.Keys - {id}
    requires forall j :: j in other ==> other[j].rec.addr == info[j].rec.addr
    ensures AddrOk(other, addr - {info[id].rec.addr.ip})
  {
  }

  lemma ForgetTried(h: Hashes, info: map<nat, Info>, other: map<nat, Info>, tried: seq<seq<nat>>, id: nat)
    requires TriedOk(h, info, tried) && id in info && !info[id].inTried && other.Keys == info.Keys - {id}
    requires forall j :: j in other ==> other[j].rec.addr == info[j].rec.addr && other[j].inTried == info[j].inTried
    ensures TriedOk(h, other, tried)
  {
  }

  lemma ForgetCounts(b: Book, other: map<nat, Info>, id: nat)
    requires CountsOk(b) && id in b.info && !b.info[id].inTried && other.Keys == b.info.Keys - {id}
    requires forall j :: j in other ==> other[j].inTried == b.info[j].inTried
    ensures CountsOk(b.(info := other, nNew := b.nNew - 1))
  {
    assert |other| == |other.Keys| == |b.info.Keys| - 1 == |b.info| - 1;
    assert TriedIds(other) == TriedIds(b.info);
  }

  /** Removing id from bucket u lowers its count there by one and no other id's. */
  lemma DropRefs(info: map<nat, Info>, news: seq<set<nat>>, u: nat, id: nat, x: set<nat>)
    requires NewOk(info, news, x) && u < |news| && id in news[u] && id !in x
    ensures forall j :: j in info ==>
              RefCountOk(if j == id then info[j].(refCount := info[j].refCount - 1) else info[j],
                         Refs(news[u := news[u] - {id}], |news|, j) + if j in x then 1 else 0)
              || (j == id && info[j].refCount == 1)
    ensures !info[id].inTried && 1 <= info[id].refCount
    ensures info[id].refCount == 1 ==> Refs(news[u := news[u] - {id}], |news|, id) == 0
  {
    forall j | j in info
      ensures Refs(news[u := news[u] - {id}], |news|, j) == Refs(news, |news|, j) - if j == id then 1 else 0
    {
      RefsOfChange(news, u, news[u] - {id}, |news|, j);
      assert RefCountOk(info[j], Refs(news, |news|, j) + if j in x then 1 else 0);
    }
    RefsPositive(news, |news|, id);
    RefsPositive(news[u := news[u] - {id}], |news|, id);
  }

  lemma DropNew(info: map<nat, Info>, news: seq<set<nat>>, u: nat, id: nat, other: map<nat, Info>, x: set<nat>)
    requires NewOk(info, news, x) && u < |news| && id in news[u] && id !in x
    requires if info[id].refCount == 1 then other.Keys == info.Keys - {id} else other.Keys == info.Keys
    requires forall j :: j in other ==> other[j].inTried == info[j].inTried
    requires forall j :: j in other ==> other[j].refCount == if j == id then info[j].refCount - 1 else info[j].refCount
    ensures NewOk(other, news[u := news[u] - {id}], x)
  {
    var less := news[u := news[u] - {id}];
    DropRefs(info, news, u, id, x);
    RefsPositive(less, |less|, id);
    assert |news[u] - {id}| <= |news[u]|;
    forall j | j in other ensures RefCountOk(other[j], Refs(less, |less|, j) + if j in x then 1 else 0) {
      assert j in info;
    }
  }

  lemma ForgetTimes(info: map<nat, Info>, other: map<nat, Info>)
    requires TimesOk(info) && other.Keys <= info.Keys
    requires forall j :: j in other ==> other[j] == info[j].(randomPos := other[j].randomPos)
    ensures TimesOk(other)
  {
    forall j | j in other ensures TimeOk(other[j]) {
      assert TimeOk(info[j]);
    }
  }

  lemma LastDropKeepsInv(h: Hashes, b: Book, u: nat, id: nat, x: set<nat>)
    requires InvBut(h, b, x) && u < |b.news| && id in b.news[u] && id !in x && id in b.info
    requires b.info[id].refCount == 1 && !b.info[id].inTried
    ensures InvBut(h, Drop(b, u, id), x)
  {
    var other := ForgetInfo(b.info, b.random, id);
    ForgetFacts(b.info, b.random, id);
    ForgetRandom(b.info, b.random, id);
    ForgetAddr(b.info, other, b.addr, id);
    ForgetTried(h, b.info, other, b.tried, id);
    ForgetCounts(b, other, id);
    DropNew(b.info, b.news, u, id, other, x);
    ForgetTimes(b.info, other);
  }

  lemma UnrefNew(info: map<nat, Info>, news: seq<set<nat>>, u: nat, id: nat, i: Info, x: set<nat>)
    requires NewOk(info, news, x) && u < |news| && id in news[u] && id !in x && id in info && info[id].refCount != 1
    requires i == info[id].(refCount := info[id].refCount - 1)
    ensures NewOk(info[id := i], news[u := news[u] - {id}], x)
  {
    assert info[id := i].Keys == info.Keys;
    DropNew(info, news, u, id, info[id := i], x);
  }

  lemma UnrefKeepsInv(h: Hashes, b: Book, u: nat, id: nat, x: set<nat>)
    requires InvBut(h, b, x) && u < |b.news| && id in b.news[u] && id !in x && id in b.info
    requires b.info[id].refCount != 1
    ensures InvBut(h, Drop(b, u, id), x)
  {
    var i := b.info[id].(refCount := b.info[id].refCount - 1);
    RandomUpdate(b.info, b.random, id, i);
    AddrUpdate(b.info, b.addr, id, i);
    TriedUpdate(h, b.info, b.tried, id, i);
    CountsUpdate(b, id, i);
    UnrefNew(b.info, b.news, u, id, i, x);
    TimesUpdate(b.info, id, i);
  }

  /** Taking an id out of a bucket keeps the invariant, and never touches a tried entry. */
  lemma DropKeepsInv(h: Hashes, b: Book, u: nat, id: nat, x: set<nat>)
    requires InvBut(h, b, x) && u < |b.news| && id in b.news[u] && id !in x && id in b.info
    ensures InvBut(h, Drop(b, u, id), x)
    ensures !b.info[id].inTried
  {
    DropRefs(b.info, b.news, u, id, x);
    if b.info[id].refCount == 1 {
      LastDropKeepsInv(h, b, u, id, x);
    } else {
      UnrefKeepsInv(h, b, u, id, x);
    }
  }

  // ---- Moving an entry to the tried buckets ----

  /** id out of every new bucket. */
  function Purged(news: seq<set<nat>>, id: nat): seq<set<nat>> {
    seq(|news|, u requires 0 <= u < |news| => news[u] - {id})
  }

  lemma {:induction false} PurgedRefs(news: seq<set<nat>>, n: nat, id: nat, j: nat)
    requires n <= |news|
    ensures Refs(Purged(news, id), n, j) == if j == id then 0 else Refs(news, n, j)
  {
    if n > 0 {
      PurgedRefs(news, n - 1, id, j);
    }
  }

  lemma PurgedSizes(news: seq<set<nat>>, id: nat)
    requires forall u :: 0 <= u < |news| ==> |news[u]| <= NEW_BUCKET_SIZE
    ensures forall u :: 0 <= u < |news| ==> |Purged(news, id)[u]| <= NEW_BUCKET_SIZE
    ensures forall u :: 0 <= u < |news| && id in news[u] ==> |Purged(news, id)[u]| < NEW_BUCKET_SIZE
  {
    forall u | 0 <= u < |news|
      ensures |Purged(news, id)[u]| == |news[u]| - if id in news[u] then 1 else 0
    {
      assert id !in news[u] ==> news[u] - {id} == news[u];
    }
  }

  function Replace(bucket: seq<nat>, pos: nat, id: nat): seq<nat>
    requires pos < |bucket|
  {
    bucket[pos := id]
  }

  function Promoted(info: map<nat, Info>, id: nat): map<nat, Info>
    requires id in info
  {
    info[id := info[id].(refCount := 0, inTried := true)]
  }

  function Demoted(info: map<nat, Info>, id: nat): map<nat, Info>
    requires id in info
  {
    info[id := info[id].(refCount := 1, inTried := false)]
  }

  /** There is room in tried bucket k. */
  function PromoteInto(b: Book, id: nat, k: nat): Book
    requires id in b.info && k < |b.tried|
  {
    b.(info := Promoted(b.info, id), tried := b.tried[k := b.tried[k] + [id]], news := Purged(b.news, id),
       nTried := b.nTried + 1, nNew := b.nNew - 1)
  }

  /** Tried bucket k is full: the entry at pos makes way and goes back to new bucket u. */
  function PromoteFor(b: Book, id: nat, k: nat, pos: nat, u: nat): Book
    requires k < |b.tried| && pos < |b.tried[k]| && id in b.info && b.tried[k][pos] in b.info && u < |b.news|
  {
    var evicted := b.tried[k][pos];
    b.(info := Promoted(Demoted(b.info, evicted), id), tried := b.tried[k := Replace(b.tried[k], pos, id)],
       news := Purged(b.news, id)[u := Purged(b.news, id)[u] + {evicted}])
  }

  lemma PromoteIntoNew(info: map<nat, Info>, news: seq<set<nat>>, id: nat)
    requires NewOk(info, news, {}) && id in info
    ensures NewOk(Promoted(info, id), Purged(news, id), {})
  {
    var purged, other := Purged(news, id), Promoted(info, id);
    PurgedSizes(news, id);
    forall j | j in other ensures RefCountOk(other[j], Refs(purged, |purged|, j)) {
      PurgedRefs(news, |news|, id, j);
      assert RefCountOk(info[j], Refs(news, |news|, j));
    }
  }

  lemma PromoteForRefs(news: seq<set<nat>>, id: nat, evicted: nat, u: nat, j: nat)
    requires u < |news| && evicted !in news[u] && evicted != id
    ensures Refs(Purged(news, id)[u := Purged(news, id)[u] + {evicted}], |news|, j)
         == (if j == id then 0 else Refs(news, |news|, j)) + if j == evicted then 1 else 0
  {
    PurgedRefs(news, |news|, id, j);
    RefsOfChange(Purged(news, id), u, Purged(news, id)[u] + {evicted}, |news|, j);
  }

  lemma PromoteForRefCount(info: map<nat, Info>, news: seq<set<nat>>, id: nat, evicted: nat, u: nat, j: nat)
    requires id in info && evicted in info && info[evicted].inTried && evicted != id && j in info
    requires u < |news| && evicted !in news[u]
    requires RefCountOk(info[j], Refs(news, |news|, j))
    ensures RefCountOk(Promoted(Demoted(info, evicted), id)[j],
                       Refs(Purged(news, id)[u := Purged(news, id)[u] + {evicted}], |news|, j))
  {
    PromoteForRefs(news, id, evicted, u, j);
  }

  lemma PromoteForSets(info: map<nat, Info>, news: seq<set<nat>>, id: nat, evicted: nat, u: nat, after: seq<set<nat>>)
    requires NewOk(info, news, {}) && evicted in info
    requires u < |news| && |Purged(news, id)[u]| < NEW_BUCKET_SIZE
    requires after == Purged(news, id)[u := Purged(news, id)[u] + {evicted}]
    ensures forall v :: 0 <= v < |after| ==> |after[v]| <= NEW_BUCKET_SIZE
    ensures forall v, j :: 0 <= v < |after| && j in after[v] ==> j in info
  {
    PurgedSizes(news, id);
  }

  lemma NotInAnyBucket(info: map<nat, Info>, news: seq<set<nat>>, x: set<nat>, id: nat)
    requires NewOk(info, news, x) && id in info && info[id].inTried
    ensures forall u :: 0 <= u < |news| ==> id !in news[u]
  {
    assert RefCountOk(info[id], Refs(news, |news|, id) + if id in x then 1 else 0);
    RefsPositive(news, |news|, id);
  }

  lemma PromoteForNew(info: map<nat, Info>, news: seq<set<nat>>, id: nat, evicted: nat, u: nat)
    requires NewOk(info, news, {}) && id in info && evicted in info && info[evicted].inTried && evicted != id
    requires u < |news| && |Purged(news, id)[u]| < NEW_BUCKET_SIZE
    ensures NewOk(Promoted(Demoted(info, evicted), id), Purged(news, id)[u := Purged(news, id)[u] + {evicted}], {})
  {
    var other := Promoted(Demoted(info, evicted), id);
    var after := Purged(news, id)[u := Purged(news, id)[u] + {evicted}];
    NotInAnyBucket(info, news, {}, evicted);
    PromoteForSets(info, news, id, evicted, u, after);
    assert other.Keys == info.Keys;
    forall j | j in other ensures RefCountOk(other[j], Refs(after, |after|, j)) {
      assert RefCountOk(info[j], Refs(news, |news|, j));
      PromoteForRefCount(info, news, id, evicted, u, j);
    }
  }

  lemma PromoteIntoTried(h: Hashes, info: map<nat, Info>, tried: seq<seq<nat>>, id: nat, k: nat)
    requires TriedOk(h, info, tried) && id in info && !info[id].inTried
    requires k == h.TriedBucket(info[id].rec.addr) && k < |tried| && |tried[k]| < TRIED_BUCKET_SIZE
    ensures TriedOk(h, Promoted(info, id), tried[k := tried[k] + [id]])
  {
    assert id !in tried[k];
  }

  lemma PromoteForTried(h: Hashes, info: map<nat, Info>, tried: seq<seq<nat>>, id: nat, k: nat, pos: nat)
    requires TriedOk(h, info, tried) && id in info && !info[id].inTried
    requires k == h.TriedBucket(info[id].rec.addr) && k < |tried| && pos < |tried[k]|
    ensures tried[k][pos] in info && info[tried[k][pos]].inTried
    ensures TriedOk(h, Promoted(Demoted(info, tried[k][pos]), id), tried[k := Replace(tried[k], pos, id)])
  {
    var evicted := tried[k][pos];
    assert evicted in tried[k] && id !in tried[k];
    var bucket := Replace(tried[k], pos, id);
    forall j ensures j in bucket <==> j == id || (j in tried[k] && j != evicted) {
      if j in tried[k] && j != evicted {
        var q :| 0 <= q < |tried[k]| && tried[k][q] == j;
        assert bucket[q] == j;
      }
      assert bucket[pos] == id;
    }
  }

  lemma PromoteIntoCounts(b: Book, id: nat)
    requires CountsOk(b) && id in b.info && !b.info[id].inTried
    ensures CountsOk(b.(info := Promoted(b.info, id), nTried := b.nTried + 1, nNew := b.nNew - 1))
  {
    var other := Promoted(b.info, id);
    assert other.Keys == b.info.Keys;
    assert |other| == |other.Keys| == |b.info.Keys| == |b.info|;
    assert TriedIds(other) == TriedIds(b.info) + {id};
  }

  lemma PromoteForCounts(b: Book, id: nat, evicted: nat)
    requires CountsOk(b) && id in b.info && !b.info[id].inTried && evicted in b.info && b.info[evicted].inTried
    ensures CountsOk(b.(info := Promoted(Demoted(b.info, evicted), id)))
  {
    var other := Promoted(Demoted(b.info, evicted), id);
    assert other.Keys == b.info.Keys;
    assert |other| == |other.Keys| == |b.info.Keys| == |b.info|;
    assert TriedIds(other) == TriedIds(b.info) - {evicted} + {id};
    assert |TriedIds(b.info) - {evicted}| == |TriedIds(b.info)| - 1;
  }

  lemma PromotedIndexes(info: map<nat, Info>, random: seq<nat>, addr: map<NetAddr, nat>, id: nat)
    requires RandomOk(info, random) && AddrOk(info, addr) && TimesOk(info) && id in info && info[id].rec.lastSuccess > 0
    ensures RandomOk(Promoted(info, id), random) && AddrOk(Promoted(info, id), addr) && TimesOk(Promoted(info, id))
  {
    var i := info[id].(refCount := 0, inTried := true);
    RandomUpdate(info, random, id, i);
    AddrUpdate(info, addr, id, i);
    TimesUpdate(info, id, i);
  }

  lemma PromoteIntoKeepsInv(h: Hashes, b: Book, id: nat, k: nat)
    requires Inv(h, b) && id in b.info && !b.info[id].inTried && b.info[id].rec.lastSuccess > 0
    requires k == h.TriedBucket(b.info[id].rec.addr) && |b.tried[k]| < TRIED_BUCKET_SIZE
    ensures Inv(h, PromoteInto(b, id, k))
  {
    PromotedIndexes(b.info, b.random, b.addr, id);
    PromoteIntoNew(b.info, b.news, id);
    PromoteIntoTried(h, b.info, b.tried, id, k);
    PromoteIntoCounts(b, id);
  }

  lemma PromoteForKeepsInv(h: Hashes, b: Book, id: nat, k: nat, pos: nat, u: nat)
    requires Inv(h, b) && id in b.info && !b.info[id].inTried && b.info[id].rec.lastSuccess > 0
    requires k == h.TriedBucket(b.info[id].rec.addr) && pos < |b.tried[k]|
    requires u < |b.news| && |Purged(b.news, id)[u]| < NEW_BUCKET_SIZE
    ensures b.tried[k][pos] in b.info && Inv(h, PromoteFor(b, id, k, pos, u))
  {
    PromoteForTried(h, b.info, b.tried, id, k, pos);
    var evicted := b.tried[k][pos];
    var e := b.info[evicted].(refCount := 1, inTried := false);
    var i := b.info[id].(refCount := 0, inTried := true);
    RandomUpdate(b.info, b.random, evicted, e);
    RandomUpdate(Demoted(b.info, evicted), b.random, id, i);
    AddrUpdate(b.info, b.addr, evicted, e);
    AddrUpdate(Demoted(b.info, evicted), b.addr, id, i);
    PromoteForNew(b.info, b.news, id, evicted, u);
    PromoteForCounts(b, id, evicted);
    TimesUpdate(b.info, evicted, e);
    TimesUpdate(Demoted(b.info, evicted), id, i);
  }
}
