/** The address manager's file: what is written, and what reading it back gives. */
module AddrDisk {
  import opened AddrBook
  import opened AddrCheck
  import opened AddrMan

  /** The file, field by field in the order written; the key stays with the manager's hashes. */
  datatype Image = Image(
    nNew: int, nTried: int, nUBuckets: nat, news: seq<Record>, tried: seq<Record>, buckets: seq<seq<nat>>)

  /** A record as it comes back: the time of the last attempt is not written. */
  function OnDisk(rec: Record): (r: Record)
    ensures r.addr == rec.addr && r.services == rec.services && r.time == rec.time && r.source == rec.source
    ensures r.lastSuccess == rec.lastSuccess && r.attempts == rec.attempts && r.lastTry == 0
  {
    rec.(lastTry := 0)
  }

  // ---- The order of the file ----

  /** The tried, or the new, ids below n in ascending order. */
  function IdsBelow(info: map<nat, Info>, n: nat, tried: bool): seq<nat> {
    if n == 0 then [] else
      IdsBelow(info, n - 1, tried) + if n - 1 in info && info[n - 1].inTried == tried then [n - 1] else []
  }

  /** The ids in the order of the file, which numbers them from 0. */
  function Order(b: Book): seq<nat> {
    IdsBelow(b.info, b.idCount, false) + IdsBelow(b.info, b.idCount, true)
  }

  predicate Increasing(s: seq<nat>) {
    forall i, j :: 0 <= i < j < |s| ==> s[i] < s[j]
  }

  lemma {:induction false} IdsBelowAre(info: map<nat, Info>, n: nat, tried: bool)
    ensures Increasing(IdsBelow(info, n, tried))
    ensures forall id :: id in IdsBelow(info, n, tried) <==> id < n && id in info && info[id].inTried == tried
  {
    if n > 0 {
      IdsBelowAre(info, n - 1, tried);
      var before := IdsBelow(info, n - 1, tried);
      forall i | 0 <= i < |before| ensures before[i] < n - 1 {
        assert before[i] in before;
      }
    }
  }

  /** An id stands at the position given by how many come before it. */
  lemma {:induction false} RankInOrder(info: map<nat, Info>, n: nat, tried: bool, id: nat)
    requires id < n && id in info && info[id].inTried == tried
    ensures var r := |IdsBelow(info, id, tried)|;
            r < |IdsBelow(info, n, tried)| && IdsBelow(info, n, tried)[r] == id
    decreases n
  {
    if id < n - 1 {
      RankInOrder(info, n - 1, tried, id);
    }
  }

  lemma {:induction false} IdsBelowGrow(info: map<nat, Info>, m: nat, n: nat, tried: bool)
    requires m <= n
    ensures IdsBelow(info, m, tried) <= IdsBelow(info, n, tried)
    decreases n
  {
    if m < n {
      IdsBelowGrow(info, m, n - 1, tried);
    }
  }

  function Elements(s: seq<nat>, n: nat): set<nat>
    requires n <= |s|
  {
    set i | 0 <= i < n :: s[i]
  }

  lemma {:induction false} DistinctCount(s: seq<nat>, n: nat)
    requires NoDuplicates(s) && n <= |s|
    ensures |Elements(s, n)| == n
  {
    if n > 0 {
      DistinctCount(s, n - 1);
      assert Elements(s, n) == Elements(s, n - 1) + {s[n - 1]};
      assert s[n - 1] !in Elements(s, n - 1);
    }
  }

  lemma SetOf(s: seq<nat>)
    ensures forall id :: id in Elements(s, |s|) <==> id in s
  {
  }

  /** The file has nNew and nTried records. */
  lemma OrderCounts(h: Hashes, b: Book)
    requires Inv(h, b)
    ensures |IdsBelow(b.info, b.idCount, false)| == b.nNew && |IdsBelow(b.info, b.idCount, true)| == b.nTried
    ensures forall id :: id in b.info ==> id in Order(b)
    ensures NoDuplicates(Order(b)) && |Order(b)| == |b.info|
  {
    var news, tried := IdsBelow(b.info, b.idCount, false), IdsBelow(b.info, b.idCount, true);
    assert CountsOk(b);
    IdsBelowAre(b.info, b.idCount, false);
    IdsBelowAre(b.info, b.idCount, true);
    CountsOfIds(b.info, news, tried);
    DistinctTogether(b.info, news, tried);
    AllInOrder(b);
  }

  lemma AllInOrder(b: Book)
    requires forall id :: id in b.info ==> id < b.idCount
    ensures forall id :: id in b.info ==> id in Order(b)
  {
    IdsBelowAre(b.info, b.idCount, false);
    IdsBelowAre(b.info, b.idCount, true);
  }

  lemma CountsOfIds(info: map<nat, Info>, news: seq<nat>, tried: seq<nat>)
    requires Increasing(news) && Increasing(tried)
    requires forall id :: id in news <==> id in info && !info[id].inTried
    requires forall id :: id in tried <==> id in info && info[id].inTried
    ensures |tried| == |TriedIds(info)| && |news| + |tried| == |info|
  {
    DistinctCount(news, |news|);
    DistinctCount(tried, |tried|);
    SetOf(tried);
    SetOf(news);
    assert Elements(tried, |tried|) == TriedIds(info);
    assert Elements(news, |news|) == info.Keys - TriedIds(info);
  }

  lemma DistinctTogether(info: map<nat, Info>, news: seq<nat>, tried: seq<nat>)
    requires Increasing(news) && Increasing(tried)
    requires forall id :: id in news ==> id in info && !info[id].inTried
    requires forall id :: id in tried ==> id in info && info[id].inTried
    ensures NoDuplicates(news + tried)
  {
    var s := news + tried;
    forall i, j | 0 <= i < j < |s| ensures s[i] != s[j] {
      assert s[i] == if i < |news| then news[i] else tried[i - |news|];
      assert s[j] == if j < |news| then news[j] else tried[j - |news|];
      if i < |news| && j >= |news| {
        assert s[i] in news && s[j] in tried;
      }
    }
  }

  // ---- What a file says of the tables ----

  predicate NewRecord(b: Book, id: nat, rec: Record) {
    id in b.info && !b.info[id].inTried && rec == OnDisk(b.info[id].rec)
  }

  predicate TriedRecord(b: Book, id: nat, rec: Record) {
    id in b.info && b.info[id].inTried && rec == OnDisk(b.info[id].rec)
  }

  /** The bucket lists, each once, the places in the order of its ids. */
  ghost predicate BucketListed(order: seq<nat>, bucket: set<nat>, list: seq<nat>) {
    && NoDuplicates(list)
    && forall m: nat :: m in list <==> m < |order| && order[m] in bucket
  }

  /** The file depicts tables b, whose ids it numbers in the given order. */
  ghost predicate Depicts(im: Image, b: Book, order: seq<nat>) {
    && NoDuplicates(order) && (forall id :: id in b.info ==> id in order)
    && im.nNew == b.nNew == |im.news| && im.nTried == b.nTried == |im.tried| && |order| == |im.news| + |im.tried|
    && (forall m :: 0 <= m < |im.news| ==> NewRecord(b, order[m], im.news[m]))
    && (forall j :: 0 <= j < |im.tried| ==> TriedRecord(b, order[|im.news| + j], im.tried[j]))
    && im.nUBuckets == NEW_BUCKET_COUNT == |im.buckets| == |b.news|
    && (forall u :: 0 <= u < |b.news| ==> BucketListed(order, b.news[u], im.buckets[u]))
  }

  // ---- Writing ----

  ghost predicate NewRecords(b: Book, ids: seq<nat>, records: seq<Record>) {
    |records| == |ids| && forall m :: 0 <= m < |records| ==> NewRecord(b, ids[m], records[m])
  }

  ghost predicate TriedRecords(b: Book, ids: seq<nat>, records: seq<Record>) {
    |records| == |ids| && forall m :: 0 <= m < |records| ==> TriedRecord(b, ids[m], records[m])
  }

  predicate HasRank(info: map<nat, Info>, places: map<nat, nat>, id: nat) {
    id in places && places[id] == |IdsBelow(info, id, false)|
  }

  ghost predicate Ranked(info: map<nat, Info>, n: nat, places: map<nat, nat>) {
    forall id :: id in info && id < n ==> HasRank(info, places, id)
  }

  lemma NothingMore(info: map<nat, Info>, m: nat, n: nat, tried: bool)
    requires m <= n && |IdsBelow(info, m, tried)| == |IdsBelow(info, n, tried)|
    ensures IdsBelow(info, m, tried) == IdsBelow(info, n, tried)
    ensures forall id :: id in info && id < n && info[id].inTried == tried ==> id < m
  {
    IdsBelowGrow(info, m, n, tried);
    IdsBelowAre(info, m, tried);
    IdsBelowAre(info, n, tried);
  }

  /** The new entries in the order of their ids, and the place of every id reached. */
  method WriteNew(b: Book) returns (news: seq<Record>, mapUnkIds: map<nat, nat>)
    requires |IdsBelow(b.info, b.idCount, false)| == b.nNew
    requires forall id :: id in b.info ==> (b.info[id].refCount != 0 <==> !b.info[id].inTried)
    ensures NewRecords(b, IdsBelow(b.info, b.idCount, false), news)
    ensures forall id :: id in b.info && id < b.idCount && !b.info[id].inTried ==> HasRank(b.info, mapUnkIds, id)
  {
    news, mapUnkIds := [], map[];
    var id := 0;
    while id < b.idCount
      invariant 0 <= id <= b.idCount
      invariant NewRecords(b, IdsBelow(b.info, id, false), news) && Ranked(b.info, id, mapUnkIds)
    {
      if id in b.info {
        if |news| == b.nNew {
          break;
        }
        mapUnkIds := mapUnkIds[id := |news|];
        if b.info[id].refCount != 0 {
          news := news + [OnDisk(b.info[id].rec)];
        }
      }
      id := id + 1;
    }
    NothingMore(b.info, id, b.idCount, false);
  }

  method WriteTried(b: Book) returns (tried: seq<Record>)
    requires |IdsBelow(b.info, b.idCount, true)| == b.nTried
    ensures TriedRecords(b, IdsBelow(b.info, b.idCount, true), tried)
  {
    tried := [];
    var id := 0;
    while id < b.idCount
      invariant 0 <= id <= b.idCount && TriedRecords(b, IdsBelow(b.info, id, true), tried)
    {
      if id in b.info {
        if |tried| == b.nTried {
          break;
        }
        if b.info[id].inTried {
          tried := tried + [OnDisk(b.info[id].rec)];
        }
      }
      id := id + 1;
    }
    NothingMore(b.info, id, b.idCount, true);
  }

  /** places says where in ids each id of the bucket stands. */
  ghost predicate Placing(ids: seq<nat>, bucket: set<nat>, places: map<nat, nat>) {
    forall id :: id in bucket ==> id in places && places[id] < |ids| && ids[places[id]] == id
  }

  /** The places of a bucket's ids, in the order of the ids. */
  method WriteBucket(ghost ids: seq<nat>, bucket: set<nat>, mapUnkIds: map<nat, nat>) returns (list: seq<nat>)
    requires Increasing(ids) && Placing(ids, bucket, mapUnkIds)
    ensures Increasing(list)
    ensures forall m: nat :: m in list <==> m < |ids| && ids[m] in bucket
  {
    list := [];
    var rest := bucket;
    while rest != {}
      invariant rest <= bucket && Increasing(list)
      invariant forall m: nat :: m in list <==> m < |ids| && ids[m] in bucket - rest
      invariant forall id, j :: id in bucket - rest && j in rest ==> id < j
      decreases rest
    {
      var id := Least(rest);
      NextPlace(ids, bucket, rest, mapUnkIds, list, id);
      list := list + [mapUnkIds[id]];
      rest := rest - {id};
    }
  }

  lemma NextPlace(ids: seq<nat>, bucket: set<nat>, rest: set<nat>, places: map<nat, nat>, list: seq<nat>, id: nat)
    requires Increasing(ids) && Increasing(list) && id in rest && rest <= bucket && Placing(ids, bucket, places)
    requires forall m: nat :: m in list <==> m < |ids| && ids[m] in bucket - rest
    requires forall j, k :: j in bucket - rest && k in rest ==> j < k
    ensures Increasing(list + [places[id]])
    ensures forall m: nat :: m in list + [places[id]] <==> m < |ids| && ids[m] in bucket - (rest - {id})
  {
    forall i | 0 <= i < |list| ensures list[i] < places[id] {
      assert list[i] in list;
      assert ids[list[i]] < ids[places[id]];
    }
    forall m: nat | m in list + [places[id]] || (m < |ids| && ids[m] in bucket - (rest - {id}))
      ensures m in list + [places[id]] && m < |ids| && ids[m] in bucket - (rest - {id})
    {
      if m !in list {
        assert m < |ids| && ids[m] == id;
        assert m == places[id];
      }
    }
  }

  lemma BucketIsListed(bucket: set<nat>, list: seq<nat>, ids: seq<nat>, tried: seq<nat>)
    requires Increasing(list) && forall m: nat :: m in list <==> m < |ids| && ids[m] in bucket
    requires forall j :: 0 <= j < |tried| ==> tried[j] !in bucket
    ensures BucketListed(ids + tried, bucket, list)
  {
  }

  ghost predicate Writable(info: map<nat, Info>, idCount: nat, bucket: set<nat>) {
    forall id :: id in bucket ==> id in info && id < idCount && !info[id].inTried
  }

  lemma PlacedByRank(info: map<nat, Info>, idCount: nat, bucket: set<nat>, places: map<nat, nat>)
    requires Writable(info, idCount, bucket)
    requires forall id :: id in bucket ==> HasRank(info, places, id)
    ensures Placing(IdsBelow(info, idCount, false), bucket, places)
  {
    forall id | id in bucket
      ensures id in places && places[id] < |IdsBelow(info, idCount, false)| && IdsBelow(info, idCount, false)[places[id]] == id
    {
      RankInOrder(info, idCount, false, id);
    }
  }

  lemma WritableBuckets(h: Hashes, b: Book)
    requires Inv(h, b)
    ensures forall u :: 0 <= u < |b.news| ==> Writable(b.info, b.idCount, b.news[u])
    ensures forall id :: id in b.info ==> (b.info[id].refCount != 0 <==> !b.info[id].inTried)
  {
    forall u | 0 <= u < |b.news| ensures Writable(b.info, b.idCount, b.news[u]) {
      NewBucketsUntried(b.info, b.news, u);
      assert AllUntried(b.info, b.news[u]);
    }
    forall id | id in b.info ensures b.info[id].refCount != 0 <==> !b.info[id].inTried {
      assert RefCountOk(b.info[id], Refs(b.news, |b.news|, id) + if id in {} then 1 else 0);
    }
  }

  method WriteListed(b: Book, bucket: set<nat>, mapUnkIds: map<nat, nat>, ghost order: seq<nat>) returns (list: seq<nat>)
    requires order == Order(b) && Writable(b.info, b.idCount, bucket) && forall id :: id in bucket ==> HasRank(b.info, mapUnkIds, id)
    ensures Increasing(list) && BucketListed(order, bucket, list)
  {
    ghost var ids, tried := IdsBelow(b.info, b.idCount, false), IdsBelow(b.info, b.idCount, true);
    PlacedByRank(b.info, b.idCount, bucket, mapUnkIds);
    IdsBelowAre(b.info, b.idCount, false);
    IdsBelowAre(b.info, b.idCount, true);
    list := WriteBucket(ids, bucket, mapUnkIds);
    forall j | 0 <= j < |tried| ensures tried[j] !in bucket {
      assert tried[j] in tried;
    }
    BucketIsListed(bucket, list, ids, tried);
  }

  /** The lists of the first u buckets. */
  ghost predicate Written(order: seq<nat>, news: seq<set<nat>>, buckets: seq<seq<nat>>, u: nat) {
    && |buckets| == u <= |news|
    && forall v :: 0 <= v < u ==> Increasing(buckets[v]) && BucketListed(order, news[v], buckets[v])
  }

  lemma WrittenOneMore(order: seq<nat>, news: seq<set<nat>>, buckets: seq<seq<nat>>, u: nat, list: seq<nat>)
    requires Written(order, news, buckets, u) && u < |news| && Increasing(list) && BucketListed(order, news[u], list)
    ensures Written(order, news, buckets + [list], u + 1)
  {
  }

  method WriteBuckets(b: Book, mapUnkIds: map<nat, nat>, ghost order: seq<nat>) returns (buckets: seq<seq<nat>>)
    requires order == Order(b)
    requires forall u :: 0 <= u < |b.news| ==> Writable(b.info, b.idCount, b.news[u])
    requires forall id :: id in b.info && id < b.idCount && !b.info[id].inTried ==> HasRank(b.info, mapUnkIds, id)
    ensures |buckets| == |b.news|
    ensures forall u :: 0 <= u < |b.news| ==> Increasing(buckets[u])
    ensures forall u :: 0 <= u < |b.news| ==> BucketListed(order, b.news[u], buckets[u])
  {
    buckets := [];
    for u := 0 to |b.news|
      invariant Written(order, b.news, buckets, u)
    {
      assert Writable(b.info, b.idCount, b.news[u]);
      var list := WriteListed(b, b.news[u], mapUnkIds, order);
      WrittenOneMore(order, b.news, buckets, u, list);
      buckets := buckets + [list];
    }
  }

  lemma FileDepicts(h: Hashes, b: Book, im: Image)
    requires Inv(h, b) && im.nNew == b.nNew && im.nTried == b.nTried && im.nUBuckets == NEW_BUCKET_COUNT == |im.buckets|
    requires NewRecords(b, IdsBelow(b.info, b.idCount, false), im.news)
    requires TriedRecords(b, IdsBelow(b.info, b.idCount, true), im.tried)
    requires |b.news| == NEW_BUCKET_COUNT && forall u :: 0 <= u < |b.news| ==> BucketListed(Order(b), b.news[u], im.buckets[u])
    ensures Depicts(im, b, Order(b))
  {
    OrderCounts(h, b);
    DepictsInParts(b, im, IdsBelow(b.info, b.idCount, false), IdsBelow(b.info, b.idCount, true));
  }

  lemma DepictsInParts(b: Book, im: Image, newIds: seq<nat>, triedIds: seq<nat>)
    requires NewRecords(b, newIds, im.news) && TriedRecords(b, triedIds, im.tried)
    requires NoDuplicates(newIds + triedIds) && forall id :: id in b.info ==> id in newIds + triedIds
    requires im.nNew == b.nNew == |newIds| && im.nTried == b.nTried == |triedIds|
    requires im.nUBuckets == NEW_BUCKET_COUNT == |im.buckets| == |b.news|
    requires forall u :: 0 <= u < |b.news| ==> BucketListed(newIds + triedIds, b.news[u], im.buckets[u])
    ensures Depicts(im, b, newIds + triedIds)
  {
    RecordsInOrder(b, newIds, triedIds, im.news, im.tried);
  }

  lemma RecordsInOrder(b: Book, newIds: seq<nat>, triedIds: seq<nat>, news: seq<Record>, tried: seq<Record>)
    requires NewRecords(b, newIds, news) && TriedRecords(b, triedIds, tried)
    ensures forall m :: 0 <= m < |news| ==> NewRecord(b, (newIds + triedIds)[m], news[m])
    ensures forall j :: 0 <= j < |tried| ==> TriedRecord(b, (newIds + triedIds)[|news| + j], tried[j])
  {
  }

  /** The file of the given tables. */
  method WriteBook(b: Book) returns (im: Image)
    requires |IdsBelow(b.info, b.idCount, false)| == b.nNew && |IdsBelow(b.info, b.idCount, true)| == b.nTried
    requires forall id :: id in b.info ==> (b.info[id].refCount != 0 <==> !b.info[id].inTried)
    requires forall u :: 0 <= u < |b.news| ==> Writable(b.info, b.idCount, b.news[u])
    ensures im.nNew == b.nNew && im.nTried == b.nTried && im.nUBuckets == NEW_BUCKET_COUNT && |im.buckets| == |b.news|
    ensures NewRecords(b, IdsBelow(b.info, b.idCount, false), im.news)
    ensures TriedRecords(b, IdsBelow(b.info, b.idCount, true), im.tried)
    ensures forall u :: 0 <= u < |b.news| ==> Increasing(im.buckets[u])
    ensures forall u :: 0 <= u < |b.news| ==> BucketListed(Order(b), b.news[u], im.buckets[u])
  {
    var news, mapUnkIds := WriteNew(b);
    var tried := WriteTried(b);
    var buckets := WriteBuckets(b, mapUnkIds, Order(b));
    im := Image(b.nNew, b.nTried, NEW_BUCKET_COUNT, news, tried, buckets);
  }

  /** Writes the file. */
  method Write(am: CAddrMan) returns (im: Image)
    requires am.Valid()
    ensures Depicts(im, am.State(), Order(am.State()))
    ensures forall u :: 0 <= u < |im.buckets| ==> Increasing(im.buckets[u])
  {
    var b := am.State();
    OrderCounts(am.hashes, b);
    WritableBuckets(am.hashes, b);
    assert |b.news| == NEW_BUCKET_COUNT;
    im := WriteBook(b);
    FileDepicts(am.hashes, b, im);
  }

  // ---- Reading ----

  /** Record m of the file as an entry, not yet in any new bucket. */
  function Entry(im: Image, m: nat): Info
    requires m < |im.news| + |im.tried|
  {
    if m < |im.news| then Info(im.news[m], 0, false, m) else Info(im.tried[m - |im.news|], 0, true, m)
  }

  /** The first n records have been read: they are numbered in the order read, which is also that of vRandom. */
  ghost predicate Filled(im: Image, info: map<nat, Info>, random: seq<nat>, n: nat)
    requires n <= |im.news| + |im.tried|
  {
    && (forall m: nat :: m in info <==> m < n)
    && (forall m: nat :: m < n ==> info[m] == Entry(im, m))
    && |random| == n && (forall m: nat :: m < n ==> random[m] == m)
  }

  ghost predicate AddressesFilled(im: Image, addr: map<NetAddr, nat>, n: nat)
    requires n <= |im.news| + |im.tried|
  {
    && (forall m: nat :: m < n ==> Entry(im, m).rec.addr.ip in addr && addr[Entry(im, m).rec.addr.ip] == m)
    && (forall a :: a in addr ==> addr[a] < n && Entry(im, addr[a]).rec.addr.ip == a)
  }

  ghost predicate DistinctAddresses(im: Image) {
    forall m: nat, n: nat :: m < n < |im.news| + |im.tried| ==> Entry(im, m).rec.addr.ip != Entry(im, n).rec.addr.ip
  }

  /** The tried records before n are in the buckets they hash to. */
  ghost predicate TriedFilled(h: Hashes, im: Image, tried: seq<seq<nat>>, n: nat)
    requires n <= |im.news| + |im.tried|
  {
    && |tried| == TRIED_BUCKET_COUNT
    && (forall k :: 0 <= k < |tried| ==> BucketFilled(h, im, tried[k], k, n))
  }

  ghost predicate BucketFilled(h: Hashes, im: Image, bucket: seq<nat>, k: nat, n: nat)
    requires n <= |im.news| + |im.tried|
  {
    && NoDuplicates(bucket)
    && forall m: nat :: m in bucket <==> |im.news| <= m < n && h.TriedBucket(Entry(im, m).rec.addr) == k
  }

  lemma {:induction false} ElementsAtMost(s: seq<nat>, n: nat)
    requires n <= |s|
    ensures |Elements(s, n)| <= n
  {
    if n > 0 {
      ElementsAtMost(s, n - 1);
      assert Elements(s, n) == Elements(s, n - 1) + {s[n - 1]};
    }
  }

  lemma SubsetSize(s: set<nat>, t: set<nat>)
    requires s <= t
    ensures |s| <= |t|
  {
    assert t == s + (t - s);
  }

  /** Distinct places of an order without repetition hold distinct ids. */
  lemma PlacesAtMost(list: seq<nat>, order: seq<nat>, ids: set<nat>)
    requires NoDuplicates(list) && NoDuplicates(order)
    requires forall i :: 0 <= i < |list| ==> list[i] < |order| && order[list[i]] in ids
    ensures |list| <= |ids|
  {
    var there := seq(|list|, i requires 0 <= i < |list| => order[list[i]]);
    forall i, j | 0 <= i < j < |there| ensures there[i] != there[j] {
      assert list[i] != list[j];
    }
    DistinctCount(there, |there|);
    SubsetSize(Elements(there, |there|), ids);
  }

  /** A tried bucket always has room for the next record, so none is lost. */
  lemma TriedFits(h: Hashes, im: Image, b: Book, order: seq<nat>, bucket: seq<nat>, n: nat)
    requires TriedOk(h, b.info, b.tried) && Depicts(im, b, order) && |im.news| <= n < |order|
    requires BucketFilled(h, im, bucket, h.TriedBucket(Entry(im, n).rec.addr), n)
    ensures |bucket| < TRIED_BUCKET_SIZE
  {
    var k := h.TriedBucket(Entry(im, n).rec.addr);
    var list := bucket + [n];
    forall i | 0 <= i < |list| ensures |im.news| <= list[i] < |order| && order[list[i]] in b.tried[k] {
      assert list[i] == n || list[i] in bucket;
      assert TriedRecord(b, order[|im.news| + (list[i] - |im.news|)], im.tried[list[i] - |im.news|]);
    }
    var ids := Elements(b.tried[k], |b.tried[k]|);
    SetOf(b.tried[k]);
    assert NoDuplicates(list) by {
      assert n !in bucket;
    }
    PlacesAtMost(list, order, ids);
    ElementsAtMost(b.tried[k], |b.tried[k]|);
  }

  lemma AddressesDiffer(im: Image, b: Book, order: seq<nat>)
    requires AddrOk(b.info, b.addr) && Depicts(im, b, order)
    ensures DistinctAddresses(im)
  {
    forall m: nat, n: nat | m < n < |im.news| + |im.tried| ensures Entry(im, m).rec.addr.ip != Entry(im, n).rec.addr.ip {
      RecordOf(im, b, order, m);
      RecordOf(im, b, order, n);
      assert b.addr[b.info[order[m]].rec.addr.ip] == order[m] && b.addr[b.info[order[n]].rec.addr.ip] == order[n];
    }
  }

  lemma RecordOf(im: Image, b: Book, order: seq<nat>, m: nat)
    requires Depicts(im, b, order) && m < |order|
    ensures order[m] in b.info && Entry(im, m) == Info(OnDisk(b.info[order[m]].rec), 0, b.info[order[m]].inTried, m)
  {
    if m < |im.news| {
      assert NewRecord(b, order[m], im.news[m]);
    } else {
      assert TriedRecord(b, order[|im.news| + (m - |im.news|)], im.tried[m - |im.news|]);
    }
  }

  lemma FillOneMore(im: Image, info: map<nat, Info>, random: seq<nat>, n: nat)
    requires n < |im.news| + |im.tried| && Filled(im, info, random, n)
    ensures Filled(im, info[n := Entry(im, n)], random + [n], n + 1)
  {
  }

  lemma AddressOneMore(im: Image, addr: map<NetAddr, nat>, n: nat)
    requires DistinctAddresses(im) && n < |im.news| + |im.tried| && AddressesFilled(im, addr, n)
    ensures AddressesFilled(im, addr[Entry(im, n).rec.addr.ip := n], n + 1)
  {
  }

  /** The first nNew records. */
  method ReadNew(im: Image) returns (mapInfo: map<nat, Info>, mapAddr: map<NetAddr, nat>, vRandom: seq<nat>)
    requires DistinctAddresses(im)
    ensures Filled(im, mapInfo, vRandom, |im.news|) && AddressesFilled(im, mapAddr, |im.news|)
  {
    mapInfo, mapAddr, vRandom := map[], map[], [];
    for n := 0 to |im.news|
      invariant Filled(im, mapInfo, vRandom, n) && AddressesFilled(im, mapAddr, n)
    {
      FillOneMore(im, mapInfo, vRandom, n);
      AddressOneMore(im, mapAddr, n);
      mapInfo := mapInfo[n := Info(im.news[n], 0, false, |vRandom|)];
      mapAddr := mapAddr[im.news[n].addr.ip := n];
      vRandom := vRandom + [n];
    }
  }

  /** One tried record; it is lost if its bucket is full. */
  method ReadOneTried(am: CAddrMan, info: Info) returns (lost: bool)
    requires |am.vvTried| == TRIED_BUCKET_COUNT
    modifies am`mapInfo, am`mapAddr, am`vRandom, am`nIdCount, am`vvTried
    ensures var k := am.hashes.TriedBucket(info.rec.addr);
            lost == (|old(am.vvTried)[k]| >= TRIED_BUCKET_SIZE)
            && am.State() == if lost then old(am.State()) else WithTried(am.hashes, old(am.State()), info)
  {
    var k := am.hashes.TriedBucket(info.rec.addr);
    if |am.vvTried[k]| < TRIED_BUCKET_SIZE {
      am.mapInfo := am.mapInfo[am.nIdCount := info.(randomPos := |am.vRandom|, inTried := true)];
      am.vRandom := am.vRandom + [am.nIdCount];
      am.mapAddr := am.mapAddr[info.rec.addr.ip := am.nIdCount];
      am.vvTried := am.vvTried[k := am.vvTried[k] + [am.nIdCount]];
      am.nIdCount := am.nIdCount + 1;
      lost := false;
    } else {
      lost := true;
    }
  }

  function WithTried(h: Hashes, b: Book, info: Info): Book
    requires |b.tried| == TRIED_BUCKET_COUNT
  {
    var k := h.TriedBucket(info.rec.addr);
    b.(info := b.info[b.idCount := info.(randomPos := |b.random|, inTried := true)], random := b.random + [b.idCount],
       addr := b.addr[info.rec.addr.ip := b.idCount], tried := b.tried[k := b.tried[k] + [b.idCount]], idCount := b.idCount + 1)
  }

  /** The tables after n records. */
  ghost predicate ReadTo(h: Hashes, im: Image, c: Book, n: nat)
    requires n <= |im.news| + |im.tried|
  {
    c.idCount == n && Filled(im, c.info, c.random, n) && AddressesFilled(im, c.addr, n) && TriedFilled(h, im, c.tried, n)
  }

  lemma ReadOneMore(h: Hashes, im: Image, b: Book, order: seq<nat>, c: Book, n: nat)
    requires DistinctAddresses(im) && TriedOk(h, b.info, b.tried) && Depicts(im, b, order) && n < |im.tried|
    requires ReadTo(h, im, c, |im.news| + n)
    ensures |c.tried[h.TriedBucket(im.tried[n].addr)]| < TRIED_BUCKET_SIZE
    ensures ReadTo(h, im, WithTried(h, c, Info(im.tried[n], 0, false, -1)), |im.news| + n + 1)
  {
    var m := |im.news| + n;
    var k := h.TriedBucket(im.tried[n].addr);
    BucketHasRoom(h, im, b, order, c.tried, n);
    assert TriedFilled(h, im, c.tried[k := c.tried[k] + [m]], m + 1) by {
      TriedOneMore(h, im, c.tried, m);
    }
    assert Filled(im, c.info[m := Entry(im, m)], c.random + [m], m + 1) by {
      FillOneMore(im, c.info, c.random, m);
    }
    AddressOneMore(im, c.addr, m);
  }

  lemma BucketHasRoom(h: Hashes, im: Image, b: Book, order: seq<nat>, tried: seq<seq<nat>>, n: nat)
    requires TriedOk(h, b.info, b.tried) && Depicts(im, b, order) && n < |im.tried| && TriedFilled(h, im, tried, |im.news| + n)
    ensures |tried[h.TriedBucket(im.tried[n].addr)]| < TRIED_BUCKET_SIZE
  {
    var k := h.TriedBucket(im.tried[n].addr);
    assert BucketFilled(h, im, tried[k], k, |im.news| + n);
    TriedFits(h, im, b, order, tried[k], |im.news| + n);
  }

  method ReadTried(am: CAddrMan, im: Image, ghost b: Book, ghost order: seq<nat>) returns (nLost: int)
    requires DistinctAddresses(im) && TriedOk(am.hashes, b.info, b.tried) && Depicts(im, b, order)
    requires ReadTo(am.hashes, im, am.State(), |im.news|)
    modifies am`mapInfo, am`mapAddr, am`vRandom, am`nIdCount, am`vvTried
    ensures nLost == 0 && ReadTo(am.hashes, im, am.State(), |im.news| + |im.tried|)
  {
    nLost := 0;
    var n := 0;
    while n < |im.tried|
      invariant 0 <= n <= |im.tried| && nLost == 0
      invariant ReadTo(am.hashes, im, am.State(), |im.news| + n)
    {
      ReadOneMore(am.hashes, im, b, order, am.State(), n);
      var lost := ReadOneTried(am, Info(im.tried[n], 0, false, -1));
      nLost := nLost + if lost then 1 else 0;
      n := n + 1;
    }
  }

  lemma TriedOneMore(h: Hashes, im: Image, tried: seq<seq<nat>>, n: nat)
    requires |im.news| <= n < |im.news| + |im.tried| && TriedFilled(h, im, tried, n)
    ensures var k := h.TriedBucket(Entry(im, n).rec.addr);
            TriedFilled(h, im, tried[k := tried[k] + [n]], n + 1)
  {
    var k := h.TriedBucket(Entry(im, n).rec.addr);
    var after := tried[k := tried[k] + [n]];
    forall j | 0 <= j < |after| ensures BucketFilled(h, im, after[j], j, n + 1) {
      assert BucketFilled(h, im, tried[j], j, n);
      assert n !in tried[j];
    }
  }

  /** Entry m, counted for the buckets before u and for u itself if it is in done. */
  function CountedEntry(im: Image, b: Book, order: seq<nat>, u: nat, done: set<nat>, m: nat): Info
    requires m < |im.news| + |im.tried| == |order| && u <= |b.news|
  {
    Entry(im, m).(refCount := Refs(b.news, u, order[m]) + if m in done then 1 else 0)
  }

  ghost predicate CountedTo(im: Image, b: Book, order: seq<nat>, info: map<nat, Info>, u: nat, done: set<nat>)
    requires |im.news| + |im.tried| == |order| && u <= |b.news|
  {
    && (forall m: nat :: m in info <==> m < |order|)
    && (forall m: nat :: m < |order| ==> info[m] == CountedEntry(im, b, order, u, done, m))
  }

  lemma FewReferences(b: Book, u: nat, id: nat)
    requires NewOk(b.info, b.news, {}) && u < |b.news| && id in b.news[u]
    ensures Refs(b.news, u, id) < NEW_BUCKETS_PER_ADDRESS
  {
    assert RefCountOk(b.info[id], Refs(b.news, |b.news|, id) + if id in {} then 1 else 0);
    RefsGrow(b.news, u + 1, |b.news|, id);
  }

  lemma NextIsCounted(im: Image, b: Book, order: seq<nat>, info: map<nat, Info>, u: nat, done: set<nat>, m: nat)
    requires NewOk(b.info, b.news, {}) && |im.news| + |im.tried| == |order| && u < |b.news|
    requires CountedTo(im, b, order, info, u, done) && m !in done && m < |order| && order[m] in b.news[u]
    ensures m in info && info[m].refCount < NEW_BUCKETS_PER_ADDRESS
    ensures CountedTo(im, b, order, info[m := info[m].(refCount := info[m].refCount + 1)], u, done + {m})
  {
    FewReferences(b, u, order[m]);
    var after := info[m := info[m].(refCount := info[m].refCount + 1)];
    forall n: nat | n < |order| ensures after[n] == CountedEntry(im, b, order, u, done + {m}, n) {
      assert info[n] == CountedEntry(im, b, order, u, done, n);
    }
  }

  lemma BucketCounted(im: Image, b: Book, order: seq<nat>, info: map<nat, Info>, u: nat, done: set<nat>)
    requires |im.news| + |im.tried| == |order| && u < |b.news| && CountedTo(im, b, order, info, u, done)
    requires forall m: nat :: m in done <==> m < |order| && order[m] in b.news[u]
    ensures CountedTo(im, b, order, info, u + 1, {})
  {
    forall m: nat | m < |order| ensures info[m] == CountedEntry(im, b, order, u + 1, {}, m) {
      assert info[m] == CountedEntry(im, b, order, u, done, m);
    }
  }

  /** The list of one new bucket. */
  method ReadBucket(im: Image, u: nat, info: map<nat, Info>, ghost b: Book, ghost order: seq<nat>)
    returns (mapInfo: map<nat, Info>, vNew: set<nat>)
    requires NewOk(b.info, b.news, {}) && u < |b.news| == |im.buckets| && im.nUBuckets == NEW_BUCKET_COUNT
    requires |im.news| + |im.tried| == |order| && BucketListed(order, b.news[u], im.buckets[u])
    requires CountedTo(im, b, order, info, u, {})
    ensures CountedTo(im, b, order, mapInfo, u + 1, {})
    ensures forall m :: m in vNew <==> m in im.buckets[u]
  {
    mapInfo, vNew := info, {};
    var nSize := |im.buckets[u]|;
    for n := 0 to nSize
      invariant CountedTo(im, b, order, mapInfo, u, vNew)
      invariant forall m :: m in vNew <==> m in im.buckets[u][..n]
    {
      var nIndex := im.buckets[u][n];
      assert nIndex in im.buckets[u];
      NextIsCounted(im, b, order, mapInfo, u, vNew, nIndex);
      if im.nUBuckets == NEW_BUCKET_COUNT && mapInfo[nIndex].refCount < NEW_BUCKETS_PER_ADDRESS {
        mapInfo := mapInfo[nIndex := mapInfo[nIndex].(refCount := mapInfo[nIndex].refCount + 1)];
        vNew := vNew + {nIndex};
      }
      assert im.buckets[u][..n + 1] == im.buckets[u][..n] + [nIndex];
    }
    assert im.buckets[u][..nSize] == im.buckets[u];
    BucketCounted(im, b, order, mapInfo, u, vNew);
  }

  method ReadBuckets(am: CAddrMan, im: Image, ghost b: Book, ghost order: seq<nat>)
    requires NewOk(b.info, b.news, {}) && Depicts(im, b, order) && |am.vvNew| == NEW_BUCKET_COUNT
    requires CountedTo(im, b, order, am.mapInfo, 0, {})
    modifies am`mapInfo, am`vvNew
    ensures CountedTo(im, b, order, am.mapInfo, |b.news|, {}) && |am.vvNew| == NEW_BUCKET_COUNT
    ensures forall u, m :: 0 <= u < |b.news| ==> (m in am.vvNew[u] <==> m in im.buckets[u])
  {
    for u := 0 to im.nUBuckets
      invariant CountedTo(im, b, order, am.mapInfo, u, {}) && |am.vvNew| == NEW_BUCKET_COUNT
      invariant forall v, m :: 0 <= v < u ==> (m in am.vvNew[v] <==> m in im.buckets[v])
    {
      assert BucketListed(order, b.news[u], im.buckets[u]);
      var mapInfo, vNew := ReadBucket(im, u, am.mapInfo, b, order);
      am.mapInfo := mapInfo;
      am.vvNew := am.vvNew[u := vNew];
    }
  }

  // ---- The round trip ----

  /** What reading gives back of an entry: all but the time of the last attempt, in the place numbered. */
  function Restored(i: Info, m: nat): Info {
    i.(rec := OnDisk(i.rec), randomPos := m)
  }

  /** Sets that correspond under an order without repetition have the same size. */
  lemma {:induction false} SameSize(order: seq<nat>, s: set<nat>, t: set<nat>)
    requires NoDuplicates(order)
    requires forall m: nat :: m in s <==> m < |order| && order[m] in t
    requires forall id :: id in t ==> id in order
    ensures |s| == |t|
    decreases t
  {
    if t == {} {
      assert s == {};
    } else {
      var id :| id in t;
      var m :| 0 <= m < |order| && order[m] == id;
      SameSize(order, s - {m}, t - {id});
    }
  }

  lemma {:induction false} RangeSize(s: set<nat>, n: nat)
    requires forall m: nat :: m in s <==> m < n
    ensures |s| == n
  {
    if n > 0 {
      RangeSize(s - {n - 1}, n - 1);
    } else {
      assert s == {};
    }
  }

  ghost predicate SameBuckets(order: seq<nat>, news: seq<set<nat>>, other: seq<set<nat>>) {
    |other| == |news| && forall u :: 0 <= u < |news| ==> SameBucket(order, news[u], other[u])
  }

  ghost predicate SameBucket(order: seq<nat>, bucket: set<nat>, other: set<nat>) {
    forall m: nat :: m in other <==> m < |order| && order[m] in bucket
  }

  lemma {:induction false} RefsRenumbered(order: seq<nat>, news: seq<set<nat>>, other: seq<set<nat>>, n: nat, m: nat)
    requires SameBuckets(order, news, other) && n <= |news| && m < |order|
    ensures Refs(other, n, m) == Refs(news, n, order[m])
  {
    if n > 0 {
      assert SameBucket(order, news[n - 1], other[n - 1]);
      RefsRenumbered(order, news, other, n - 1, m);
    }
  }

  /** The entries correspond. */
  ghost predicate SameEntries(order: seq<nat>, info: map<nat, Info>, other: map<nat, Info>) {
    && NoDuplicates(order) && (forall id :: id in info <==> id in order)
    && (forall m: nat :: m in other <==> m < |order|)
    && (forall m: nat :: m < |order| ==> other[m] == Restored(info[order[m]], m))
  }

  lemma NewRenumbered(order: seq<nat>, info: map<nat, Info>, other: map<nat, Info>, news: seq<set<nat>>, after: seq<set<nat>>)
    requires NewOk(info, news, {}) && SameEntries(order, info, other) && SameBuckets(order, news, after)
    ensures NewOk(other, after, {})
  {
    forall u | 0 <= u < |after| ensures |after[u]| <= NEW_BUCKET_SIZE {
      assert SameBucket(order, news[u], after[u]);
      forall id | id in news[u] ensures id in order {
        assert id in info;
      }
      SameSize(order, after[u], news[u]);
    }
    forall u, m: nat | 0 <= u < |after| && m in after[u] ensures m in other {
      assert SameBucket(order, news[u], after[u]);
    }
    forall m | m in other ensures RefCountOk(other[m], Refs(after, |after|, m)) {
      assert order[m] in info;
      assert RefCountOk(info[order[m]], Refs(news, |news|, order[m]) + if order[m] in {} then 1 else 0);
      RefsRenumbered(order, news, after, |news|, m);
    }
  }

  lemma CountsRenumbered(order: seq<nat>, info: map<nat, Info>, other: map<nat, Info>)
    requires SameEntries(order, info, other)
    ensures |other| == |info| == |order| && |TriedIds(other)| == |TriedIds(info)|
  {
    assert |other| == |other.Keys|;
    assert |info| == |info.Keys|;
    RangeSize(other.Keys, |order|);
    SameSize(order, other.Keys, info.Keys);
    forall m: nat ensures m in TriedIds(other) <==> m < |order| && order[m] in TriedIds(info) {
      assert m < |order| ==> order[m] in order;
    }
    SameSize(order, TriedIds(other), TriedIds(info));
  }

  ghost predicate SameTried(order: seq<nat>, tried: seq<seq<nat>>, other: seq<seq<nat>>) {
    |other| == |tried| && forall k, m: nat :: 0 <= k < |tried| ==> (m in other[k] <==> m < |order| && order[m] in tried[k])
  }

  lemma TriedRenumbered(h: Hashes, order: seq<nat>, info: map<nat, Info>, other: map<nat, Info>, tried: seq<seq<nat>>, after: seq<seq<nat>>)
    requires TriedOk(h, info, tried) && SameEntries(order, info, other) && SameTried(order, tried, after)
    requires forall k :: 0 <= k < |after| ==> NoDuplicates(after[k])
    ensures TriedOk(h, other, after)
  {
    forall k | 0 <= k < |after| ensures |after[k]| <= TRIED_BUCKET_SIZE {
      SetOf(after[k]);
      SetOf(tried[k]);
      DistinctCount(after[k], |after[k]|);
      ElementsAtMost(tried[k], |tried[k]|);
      SameSize(order, Elements(after[k], |after[k]|), Elements(tried[k], |tried[k]|));
    }
    forall k, m: nat | 0 <= k < |after|
      ensures m in after[k] <==> m in other && other[m].inTried && h.TriedBucket(other[m].rec.addr) == k
    {
      assert m < |order| ==> order[m] in order;
      assert m < |order| ==> (order[m] in tried[k] <==> info[order[m]].inTried && h.TriedBucket(info[order[m]].rec.addr) == k);
    }
  }

  lemma TimesRenumbered(order: seq<nat>, info: map<nat, Info>, other: map<nat, Info>)
    requires TimesOk(info) && SameEntries(order, info, other)
    ensures TimesOk(other)
  {
    forall m | m in other ensures TimeOk(other[m]) {
      assert order[m] in order;
      assert TimeOk(info[order[m]]);
    }
  }

  ghost predicate SameAddresses(order: seq<nat>, addr: map<NetAddr, nat>, other: map<NetAddr, nat>) {
    && (forall a :: a in other <==> a in addr)
    && (forall a :: a in other ==> other[a] < |order| && order[other[a]] == addr[a])
  }

  lemma AddrRenumbered(order: seq<nat>, info: map<nat, Info>, other: map<nat, Info>, addr: map<NetAddr, nat>, after: map<NetAddr, nat>)
    requires AddrOk(info, addr) && SameEntries(order, info, other) && SameAddresses(order, addr, after)
    ensures AddrOk(other, after)
  {
    forall m | m in other ensures other[m].rec.addr.ip in after && after[other[m].rec.addr.ip] == m {
      assert order[m] in order;
    }
  }

  /** vRandom lists the entries in their new order. */
  lemma RandomRenumbered(order: seq<nat>, info: map<nat, Info>, other: map<nat, Info>, random: seq<nat>)
    requires SameEntries(order, info, other) && |random| == |order| && forall m: nat :: m < |random| ==> random[m] == m
    ensures RandomOk(other, random)
  {
    CountsRenumbered(order, info, other);
  }

  /** Tables c are tables b with the ids renumbered: id order[m] of b is m in c. Kept are the records, the standing
      and the reference count of every entry, and the members of every bucket, tried or new. */
  ghost predicate Renumbered(b: Book, c: Book, order: seq<nat>) {
    && SameEntries(order, b.info, c.info) && SameAddresses(order, b.addr, c.addr)
    && SameBuckets(order, b.news, c.news) && SameTried(order, b.tried, c.tried)
    && c.nTried == b.nTried && c.nNew == b.nNew
  }

  lemma RenumberedKeepsInv(h: Hashes, b: Book, c: Book, order: seq<nat>)
    requires Inv(h, b) && Renumbered(b, c, order)
    requires c.idCount == |order| == |c.random| && forall m: nat :: m < |c.random| ==> c.random[m] == m
    requires forall k :: 0 <= k < |c.tried| ==> NoDuplicates(c.tried[k])
    ensures Inv(h, c)
  {
    RandomRenumbered(order, b.info, c.info, c.random);
    AddrRenumbered(order, b.info, c.info, b.addr, c.addr);
    NewRenumbered(order, b.info, c.info, b.news, c.news);
    TriedRenumbered(h, order, b.info, c.info, b.tried, c.tried);
    TimesRenumbered(order, b.info, c.info);
    CountsRenumbered(order, b.info, c.info);
  }

  lemma ReadEntries(im: Image, b: Book, order: seq<nat>, info: map<nat, Info>)
    requires NewOk(b.info, b.news, {}) && Depicts(im, b, order) && CountedTo(im, b, order, info, |b.news|, {})
    ensures SameEntries(order, b.info, info)
  {
    forall id | id in order ensures id in b.info {
      var m :| 0 <= m < |order| && order[m] == id;
      RecordOf(im, b, order, m);
    }
    forall m: nat | m < |order| ensures info[m] == Restored(b.info[order[m]], m) {
      RecordOf(im, b, order, m);
      assert info[m] == CountedEntry(im, b, order, |b.news|, {}, m);
      assert RefCountOk(b.info[order[m]], Refs(b.news, |b.news|, order[m]) + if order[m] in {} then 1 else 0);
    }
  }

  lemma ReadAddresses(im: Image, b: Book, order: seq<nat>, addr: map<NetAddr, nat>)
    requires AddrOk(b.info, b.addr) && Depicts(im, b, order) && AddressesFilled(im, addr, |order|)
    ensures SameAddresses(order, b.addr, addr)
  {
    forall a | a in addr ensures a in b.addr && addr[a] < |order| && order[addr[a]] == b.addr[a] {
      RecordOf(im, b, order, addr[a]);
    }
    forall a | a in b.addr ensures a in addr {
      assert b.addr[a] in order;
      var m :| 0 <= m < |order| && order[m] == b.addr[a];
      RecordOf(im, b, order, m);
      assert Entry(im, m).rec.addr.ip == a;
    }
  }

  lemma ReadTriedBuckets(h: Hashes, im: Image, b: Book, order: seq<nat>, tried: seq<seq<nat>>)
    requires TriedOk(h, b.info, b.tried) && Depicts(im, b, order) && TriedFilled(h, im, tried, |order|)
    ensures SameTried(order, b.tried, tried)
    ensures forall k :: 0 <= k < |tried| ==> NoDuplicates(tried[k])
  {
    forall k, m: nat | 0 <= k < |tried| ensures m in tried[k] <==> m < |order| && order[m] in b.tried[k] {
      assert BucketFilled(h, im, tried[k], k, |order|);
      if m < |order| {
        RecordOf(im, b, order, m);
      }
    }
    forall k | 0 <= k < |tried| ensures NoDuplicates(tried[k]) {
      assert BucketFilled(h, im, tried[k], k, |order|);
    }
  }

  lemma StartCounting(im: Image, b: Book, order: seq<nat>, info: map<nat, Info>, random: seq<nat>)
    requires |im.news| + |im.tried| == |order| && Filled(im, info, random, |order|)
    ensures CountedTo(im, b, order, info, 0, {})
  {
  }

  /** Reading a file that depicts some tables gives those tables with the ids renumbered; no entry is lost, and the
      tables read satisfy the invariant. The manager holds the key the file was written with. */
  method Read(am: CAddrMan, im: Image, ghost b: Book, ghost order: seq<nat>)
    requires Inv(am.hashes, b) && Depicts(im, b, order)
    modifies am
    ensures am.Valid() && Renumbered(b, am.State(), order)
  {
    ReadParts(am, im, b, order);
    RenumberedKeepsInv(am.hashes, b, am.State(), order);
  }

  method ReadParts(am: CAddrMan, im: Image, ghost b: Book, ghost order: seq<nat>)
    requires AddrOk(b.info, b.addr) && NewOk(b.info, b.news, {}) && TriedOk(am.hashes, b.info, b.tried) && Depicts(im, b, order)
    modifies am
    ensures Renumbered(b, am.State(), order) && forall k :: 0 <= k < |am.vvTried| ==> NoDuplicates(am.vvTried[k])
    ensures am.nIdCount == |order| == |am.vRandom| && forall m: nat :: m < |am.vRandom| ==> am.vRandom[m] == m
  {
    am.nNew, am.nTried := im.nNew, im.nTried;
    am.vvTried, am.vvNew := seq(TRIED_BUCKET_COUNT, i => []), seq(NEW_BUCKET_COUNT, i => {});
    AddressesDiffer(im, b, order);
    var mapInfo, mapAddr, vRandom := ReadNew(im);
    am.mapInfo, am.mapAddr, am.vRandom, am.nIdCount := mapInfo, mapAddr, vRandom, |im.news|;
    var nLost := ReadTried(am, im, b, order);
    am.nTried := am.nTried - nLost;
    StartCounting(im, b, order, am.mapInfo, am.vRandom);
    ReadAddresses(im, b, order, am.mapAddr);
    ReadTriedBuckets(am.hashes, im, b, order, am.vvTried);
    ReadBuckets(am, im, b, order);
    ReadEntries(im, b, order, am.mapInfo);
    forall u | 0 <= u < |b.news| ensures SameBucket(order, b.news[u], am.vvNew[u]) {
      assert BucketListed(order, b.news[u], im.buckets[u]);
    }
  }

  /** Saving the tables and reading the file back, in another manager with the same key. */
  method SaveAndLoad(am: CAddrMan, other: CAddrMan) returns (im: Image)
    requires am.Valid() && other != am && other.hashes == am.hashes
    modifies other
    ensures am.Valid() && other.Valid() && Renumbered(am.State(), other.State(), Order(am.State()))
    ensures forall ip :: Kept(am.State(), other.State(), ip)
  {
    im := Write(am);
    Read(other, im, am.State(), Order(am.State()));
    forall ip {
      RenumberedKeeps(am.hashes, am.State(), other.State(), Order(am.State()), ip);
    }
  }

  /** What is known of an address, all but the last try, and in which buckets it is, are the same, under whatever id. */
  ghost predicate Kept(b: Book, c: Book, ip: NetAddr) {
    && (ip in b.addr <==> ip in c.addr) && |c.news| == |b.news| && |c.tried| == |b.tried|
    && (ip in b.addr ==>
          var i, j := b.addr[ip], c.addr[ip];
          && i in b.info && j in c.info && KeptEntry(b.info[i], c.info[j])
          && (forall u :: 0 <= u < |b.news| ==> (j in c.news[u] <==> i in b.news[u]))
          && (forall k :: 0 <= k < |b.tried| ==> (j in c.tried[k] <==> i in b.tried[k])))
  }

  predicate KeptEntry(i: Info, j: Info) {
    && j.refCount == i.refCount && j.inTried == i.inTried
    && j.rec.addr == i.rec.addr && j.rec.services == i.rec.services && j.rec.time == i.rec.time && j.rec.source == i.rec.source
    && j.rec.lastSuccess == i.rec.lastSuccess && j.rec.attempts == i.rec.attempts
  }

  lemma RenumberedKeeps(h: Hashes, b: Book, c: Book, order: seq<nat>, ip: NetAddr)
    requires Inv(h, b) && Inv(h, c) && Renumbered(b, c, order)
    ensures Kept(b, c, ip)
  {
    if ip in b.addr {
      var m := PlaceOf(b, c, order, ip);
      BucketsKept(b, c, order, m);
    }
  }

  /** Where the entry of an address stands in the order, which is its id in c. */
  lemma PlaceOf(b: Book, c: Book, order: seq<nat>, ip: NetAddr) returns (m: nat)
    requires AddrOk(b.info, b.addr) && AddrOk(c.info, c.addr) && SameEntries(order, b.info, c.info) && ip in b.addr
    ensures m < |order| && order[m] == b.addr[ip] && ip in c.addr && c.addr[ip] == m
    ensures m in c.info && order[m] in b.info && KeptEntry(b.info[order[m]], c.info[m])
  {
    var i := b.addr[ip];
    assert i in order;
    m :| 0 <= m < |order| && order[m] == i;
    assert c.info[m] == Restored(b.info[i], m);
  }

  lemma BucketsKept(b: Book, c: Book, order: seq<nat>, m: nat)
    requires SameBuckets(order, b.news, c.news) && SameTried(order, b.tried, c.tried) && m < |order|
    ensures |c.news| == |b.news| && forall u :: 0 <= u < |b.news| ==> (m in c.news[u] <==> order[m] in b.news[u])
    ensures |c.tried| == |b.tried| && forall k :: 0 <= k < |b.tried| ==> (m in c.tried[k] <==> order[m] in b.tried[k])
  {
    forall u | 0 <= u < |b.news| ensures m in c.news[u] <==> order[m] in b.news[u] {
      assert SameBucket(order, b.news[u], c.news[u]);
    }
  }
}
