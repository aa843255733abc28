/** The address manager's own consistency check, and what it has to do with the invariant. */
module AddrCheck {
  import opened AddrBook

  /** What the check says of one entry; 0 is good. */
  function EntryCode(addr: map<NetAddr, nat>, random: seq<nat>, n: nat, i: Info): int {
    if i.inTried && i.rec.lastSuccess == 0 then -1
    else if i.inTried && i.refCount != 0 then -2
    else if !i.inTried && (i.refCount < 0 || i.refCount > NEW_BUCKETS_PER_ADDRESS) then -3
    else if !i.inTried && i.refCount == 0 then -4
    else if IdOf(addr, i.rec.addr.ip) != n then -5
    else if i.randomPos < 0 || i.randomPos >= |random| || random[i.randomPos] != n then -14
    else if i.rec.lastTry < 0 then -6
    else if i.rec.lastSuccess < 0 then -8
    else 0
  }

  /** An address looked up; a missing one has id 0. */
  function IdOf(addr: map<NetAddr, nat>, ip: NetAddr): (id: nat)
    ensures if ip in addr then id == addr[ip] else id == 0
  {
    if ip in addr then addr[ip] else 0
  }

  ghost predicate EntriesOk(info: map<nat, Info>, addr: map<NetAddr, nat>, random: seq<nat>) {
    forall n :: n in info ==> EntryCode(addr, random, n, info[n]) == 0
  }

  /** How often id is among the first i of a bucket. */
  function Occurs(bucket: seq<nat>, i: nat, id: nat): nat
    requires i <= |bucket|
  {
    if i == 0 then 0 else Occurs(bucket, i - 1, id) + if bucket[i - 1] == id then 1 else 0
  }

  /** How often id is in the first n tried buckets. */
  function Times(tried: seq<seq<nat>>, n: nat, id: nat): nat
    requires n <= |tried|
  {
    if n == 0 then 0 else Times(tried, n - 1, id) + Occurs(tried[n - 1], |tried[n - 1]|, id)
  }

  /** The tried buckets together hold the given ids, each once. */
  ghost predicate HoldOnce(tried: seq<seq<nat>>, ids: set<nat>) {
    forall id {:trigger Times(tried, |tried|, id)} :: Times(tried, |tried|, id) == if id in ids then 1 else 0
  }

  function Wanted(counts: map<nat, int>, id: nat): int {
    if id in counts then counts[id] else 0
  }

  /** The new buckets together hold each id as often as counted. */
  ghost predicate HoldCounted(news: seq<set<nat>>, counts: map<nat, int>) {
    forall id {:trigger Refs(news, |news|, id)} :: Refs(news, |news|, id) == Wanted(counts, id)
  }

  function NewCounts(info: map<nat, Info>): map<nat, int> {
    map id | id in info && !info[id].inTried :: info[id].refCount
  }

  /** Everything the check looks at. */
  ghost predicate CheckOk(b: Book) {
    && |b.random| == b.nTried + b.nNew
    && EntriesOk(b.info, b.addr, b.random)
    && |TriedIds(b.info)| == b.nTried && |NewCounts(b.info)| == b.nNew
    && HoldOnce(b.tried, TriedIds(b.info))
    && HoldCounted(b.news, NewCounts(b.info))
  }

  // ---- The loops ----

  method CheckEntry(n: nat, i: Info, addr: map<NetAddr, nat>, random: seq<nat>) returns (r: int, mapAddr: map<NetAddr, nat>)
    ensures r == EntryCode(addr, random, n, i)
    ensures mapAddr == addr || mapAddr == addr[i.rec.addr.ip := 0]
    ensures i.rec.addr.ip in addr ==> mapAddr == addr
  {
    mapAddr := addr;
    if i.inTried {
      if i.rec.lastSuccess == 0 { return -1, mapAddr; }
      if i.refCount != 0 { return -2, mapAddr; }
    } else {
      if i.refCount < 0 || i.refCount > NEW_BUCKETS_PER_ADDRESS { return -3, mapAddr; }
      if i.refCount == 0 { return -4, mapAddr; }
    }
    if i.rec.addr.ip !in mapAddr {
      mapAddr := mapAddr[i.rec.addr.ip := 0];
    }
    if mapAddr[i.rec.addr.ip] != n { return -5, mapAddr; }
    if i.randomPos < 0 || i.randomPos >= |random| || random[i.randomPos] != n { return -14, mapAddr; }
    if i.rec.lastTry < 0 { return -6, mapAddr; }
    if i.rec.lastSuccess < 0 { return -8, mapAddr; }
    r := 0;
  }

  /** The ids of the tried entries outside rest, and the reference counts of the others. */
  ghost predicate Collected(info: map<nat, Info>, rest: set<nat>, setTried: set<nat>, mapNew: map<nat, int>) {
    && setTried == (set n | n in info && n !in rest && info[n].inTried)
    && mapNew == map n | n in info && n !in rest && !info[n].inTried :: info[n].refCount
  }

  lemma CollectedOneMore(info: map<nat, Info>, rest: set<nat>, setTried: set<nat>, mapNew: map<nat, int>, n: nat)
    requires Collected(info, rest, setTried, mapNew) && n in info && n in rest
    ensures if info[n].inTried then Collected(info, rest - {n}, setTried + {n}, mapNew)
            else Collected(info, rest - {n}, setTried, mapNew[n := info[n].refCount])
  {
  }

  method CheckEntries(info: map<nat, Info>, addr: map<NetAddr, nat>, random: seq<nat>)
    returns (r: int, setTried: set<nat>, mapNew: map<nat, int>, mapAddr: map<NetAddr, nat>)
    ensures r == 0 <==> EntriesOk(info, addr, random)
    ensures r == 0 ==> setTried == TriedIds(info) && mapNew == NewCounts(info)
    ensures (forall n :: n in info ==> info[n].rec.addr.ip in addr) ==> mapAddr == addr
  {
    setTried, mapNew, mapAddr := {}, map[], addr;
    var rest := info.Keys;
    while rest != {}
      invariant rest <= info.Keys
      invariant forall n :: n in info && n !in rest ==> EntryCode(addr, random, n, info[n]) == 0
      invariant forall ip :: IdOf(mapAddr, ip) == IdOf(addr, ip)
      invariant (forall n :: n in info ==> info[n].rec.addr.ip in addr) ==> mapAddr == addr
      invariant Collected(info, rest, setTried, mapNew)
      decreases rest
    {
      var n := Least(rest);
      var i := info[n];
      r, mapAddr := CheckEntry(n, i, mapAddr, random);
      if r != 0 {
        return;
      }
      CollectedOneMore(info, rest, setTried, mapNew, n);
      if i.inTried {
        setTried := setTried + {n};
      } else {
        mapNew := mapNew[n := i.refCount];
      }
      rest := rest - {n};
    }
    r := 0;
  }

  /** Crosses off the ids met in the tried buckets. */
  method CheckTried(ids: set<nat>, tried: seq<seq<nat>>) returns (r: int, setTried: set<nat>)
    ensures r == 0 && setTried == {} <==> HoldOnce(tried, ids)
  {
    setTried := ids;
    var n := 0;
    while n < |tried|
      invariant 0 <= n <= |tried|
      invariant forall id {:trigger Times(tried, n, id)} :: (if id in setTried then 1 else 0) + Times(tried, n, id) == if id in ids then 1 else 0
    {
      var i := 0;
      while i < |tried[n]|
        invariant 0 <= i <= |tried[n]|
        invariant forall id {:trigger Occurs(tried[n], i, id)} :: (if id in setTried then 1 else 0) + Times(tried, n, id) + Occurs(tried[n], i, id) == if id in ids then 1 else 0
      {
        var id := tried[n][i];
        if id !in setTried {
          OccursOnce(tried[n], i + 1, |tried[n]|, id);
          TimesGrow(tried, n + 1, |tried|, id);
          return -11, setTried;
        }
        setTried := setTried - {id};
        i := i + 1;
      }
      n := n + 1;
    }
    r := 0;
    if setTried != {} {
      var id :| id in setTried;
      assert Times(tried, |tried|, id) == 0;
    }
  }

  lemma {:induction false} OccursOnce(bucket: seq<nat>, i: nat, j: nat, id: nat)
    requires i <= j <= |bucket|
    ensures Occurs(bucket, i, id) <= Occurs(bucket, j, id)
  {
    if i < j {
      OccursOnce(bucket, i, j - 1, id);
    }
  }

  lemma {:induction false} TimesGrow(tried: seq<seq<nat>>, m: nat, n: nat, id: nat)
    requires m <= n <= |tried|
    ensures Times(tried, m, id) <= Times(tried, n, id)
  {
    if m < n {
      TimesGrow(tried, m, n - 1, id);
    }
  }

  /** Counts down as ids are met in the new buckets. */
  method CheckNew(counts: map<nat, int>, news: seq<set<nat>>) returns (r: int, mapNew: map<nat, int>)
    requires forall id :: id in counts ==> counts[id] > 0
    ensures r == 0 && mapNew == map[] <==> HoldCounted(news, counts)
  {
    mapNew := counts;
    var n := 0;
    while n < |news|
      invariant 0 <= n <= |news|
      invariant forall id :: id in mapNew ==> mapNew[id] > 0
      invariant forall id {:trigger Refs(news, n, id)} :: Wanted(mapNew, id) + Refs(news, n, id) == Wanted(counts, id)
    {
      var rest := news[n];
      while rest != {}
        invariant rest <= news[n]
        invariant forall id :: id in mapNew ==> mapNew[id] > 0
        invariant forall id {:trigger Refs(news, n, id)} :: Wanted(mapNew, id) + Refs(news, n, id)
                    + (if id in news[n] && id !in rest then 1 else 0) == Wanted(counts, id)
        decreases rest
      {
        var id := Least(rest);
        if id !in mapNew {
          RefsGrow(news, n + 1, |news|, id);
          assert Wanted(mapNew, id) + Refs(news, n, id) == Wanted(counts, id);
          return -12, mapNew;
        }
        mapNew := mapNew[id := mapNew[id] - 1];
        if mapNew[id] == 0 {
          mapNew := mapNew - {id};
        }
        rest := rest - {id};
      }
      n := n + 1;
    }
    r := 0;
    if mapNew != map[] {
      var id :| id in mapNew;
      assert Refs(news, |news|, id) < Wanted(counts, id);
    }
  }

  lemma {:induction false} RefsGrow(news: seq<set<nat>>, m: nat, n: nat, id: nat)
    requires m <= n <= |news|
    ensures Refs(news, m, id) <= Refs(news, n, id)
  {
    if m < n {
      RefsGrow(news, m, n - 1, id);
    }
  }

  lemma CountNew(info: map<nat, Info>, mapNew: map<nat, int>)
    requires forall n :: n in info && !info[n].inTried ==> info[n].refCount > 0
    requires mapNew == NewCounts(info)
    ensures forall id :: id in mapNew ==> mapNew[id] > 0
  {
  }

  // ---- The check and the invariant ----

  lemma {:induction false} OccursInSet(bucket: seq<nat>, i: nat, id: nat)
    requires i <= |bucket| && NoDuplicates(bucket)
    ensures Occurs(bucket, i, id) == if id in bucket[..i] then 1 else 0
  {
    if i > 0 {
      OccursInSet(bucket, i - 1, id);
    }
  }

  /** A tried id is counted once, in the bucket it hashes to. */
  lemma {:induction false} TimesOfTried(h: Hashes, info: map<nat, Info>, tried: seq<seq<nat>>, n: nat, id: nat)
    requires TriedOk(h, info, tried) && n <= |tried|
    ensures Times(tried, n, id) == if id in info && info[id].inTried && h.TriedBucket(info[id].rec.addr) < n then 1 else 0
  {
    if n > 0 {
      TimesOfTried(h, info, tried, n - 1, id);
      OccursInSet(tried[n - 1], |tried[n - 1]|, id);
      assert tried[n - 1][..|tried[n - 1]|] == tried[n - 1];
    }
  }

  lemma TriedIsChecked(h: Hashes, info: map<nat, Info>, tried: seq<seq<nat>>)
    requires TriedOk(h, info, tried)
    ensures HoldOnce(tried, TriedIds(info))
  {
    forall id ensures Times(tried, |tried|, id) == if id in TriedIds(info) then 1 else 0 {
      TimesOfTried(h, info, tried, |tried|, id);
    }
  }

  lemma NewIsChecked(info: map<nat, Info>, news: seq<set<nat>>)
    requires NewOk(info, news, {})
    ensures HoldCounted(news, NewCounts(info))
    ensures forall n :: n in info ==> RefCountOk(info[n], Refs(news, |news|, n))
  {
    forall id ensures Refs(news, |news|, id) == Wanted(NewCounts(info), id) {
      RefsPositive(news, |news|, id);
      if id in info {
        assert RefCountOk(info[id], Refs(news, |news|, id));
      }
    }
  }

  lemma NewCounted(info: map<nat, Info>)
    ensures |NewCounts(info)| + |TriedIds(info)| == |info|
  {
    assert NewCounts(info).Keys == info.Keys - TriedIds(info);
    assert |NewCounts(info)| == |NewCounts(info).Keys|;
  }

  lemma EntriesAreChecked(info: map<nat, Info>, addr: map<NetAddr, nat>, random: seq<nat>)
    requires RandomOk(info, random) && AddrOk(info, addr) && TimesOk(info)
    requires forall n :: n in info ==> if info[n].inTried then info[n].refCount == 0 else 1 <= info[n].refCount <= NEW_BUCKETS_PER_ADDRESS
    ensures EntriesOk(info, addr, random)
  {
    forall n | n in info ensures EntryCode(addr, random, n, info[n]) == 0 {
      assert TimeOk(info[n]);
    }
  }

  /** In every state the operations reach, the check passes. */
  lemma InvIsChecked(h: Hashes, b: Book)
    requires Inv(h, b)
    ensures CheckOk(b)
    ensures forall n :: n in b.info ==> b.info[n].rec.addr.ip in b.addr
  {
    TriedIsChecked(h, b.info, b.tried);
    NewIsChecked(b.info, b.news);
    NewCounted(b.info);
    EntriesAreChecked(b.info, b.addr, b.random);
  }

  /** n distinct naturals below n are all of them. */
  lemma {:induction false} Pigeonhole(s: set<nat>, n: nat, p: nat)
    requires |s| == n && p < n && forall x :: x in s ==> x < n
    ensures p in s
  {
    if n - 1 in s {
      if p < n - 1 {
        Pigeonhole(s - {n - 1}, n - 1, p);
      }
    } else {
      TooMany(s, n - 1);
    }
  }

  lemma {:induction false} TooMany(s: set<nat>, n: nat)
    requires forall x :: x in s ==> x < n
    ensures |s| <= n
  {
    if n == 0 {
      assert s == {};
    } else {
      TooMany(s - {n - 1}, n - 1);
      assert s - {n - 1} == if n - 1 in s then s - {n - 1} else s;
    }
  }

  ghost function Positions(info: map<nat, Info>, ids: set<nat>): (r: set<int>)
    requires ids <= info.Keys
  {
    set id | id in ids :: info[id].randomPos
  }

  lemma {:induction false} PositionsCount(info: map<nat, Info>, random: seq<nat>, ids: set<nat>)
    requires ids <= info.Keys
    requires forall n :: n in ids ==> 0 <= info[n].randomPos < |random| && random[info[n].randomPos] == n
    ensures |Positions(info, ids)| == |ids|
  {
    if ids != {} {
      var id :| id in ids;
      PositionsCount(info, random, ids - {id});
      assert Positions(info, ids) == Positions(info, ids - {id}) + {info[id].randomPos};
      assert info[id].randomPos !in Positions(info, ids - {id});
    }
  }

  /** The check does see to it that vRandom and the positions are inverse bijections: it compares in one direction
      only, but counts. */
  lemma CheckedRandom(b: Book)
    requires CheckOk(b)
    ensures RandomOk(b.info, b.random)
  {
    NewCounted(b.info);
    var positions := Positions(b.info, b.info.Keys);
    forall n | n in b.info ensures 0 <= b.info[n].randomPos < |b.random| && b.random[b.info[n].randomPos] == n {
      assert EntryCode(b.addr, b.random, n, b.info[n]) == 0;
    }
    PositionsCount(b.info, b.random, b.info.Keys);
    var spots := set p: nat | p in positions;
    assert spots == positions;
    forall p | 0 <= p < |b.random| ensures b.random[p] in b.info && b.info[b.random[p]].randomPos == p {
      Pigeonhole(spots, |b.random|, p);
    }
  }

  /** What the check does not look at: sizes and number of the buckets, where a tried entry belongs, fresh ids, and
      addresses in mapAddr of no entry (or missing for the entry with id 0). */
  ghost predicate Unchecked(h: Hashes, b: Book) {
    && |b.news| == NEW_BUCKET_COUNT && (forall u :: 0 <= u < |b.news| ==> |b.news[u]| <= NEW_BUCKET_SIZE)
    && |b.tried| == TRIED_BUCKET_COUNT && (forall k :: 0 <= k < |b.tried| ==> |b.tried[k]| <= TRIED_BUCKET_SIZE)
    && (forall k, id :: 0 <= k < |b.tried| && id in b.tried[k] && id in b.info ==> h.TriedBucket(b.info[id].rec.addr) == k)
    && (forall id :: id in b.info ==> id < b.idCount && b.info[id].rec.addr.ip in b.addr)
    && (forall a :: a in b.addr ==> b.addr[a] in b.info && b.info[b.addr[a]].rec.addr.ip == a)
  }

  lemma {:induction false} OccursPositive(bucket: seq<nat>, i: nat, id: nat)
    requires i <= |bucket|
    ensures Occurs(bucket, i, id) > 0 <==> id in bucket[..i]
    ensures forall p, q :: 0 <= p < q < i && bucket[p] == id && bucket[q] == id ==> Occurs(bucket, i, id) > 1
  {
    if i > 0 {
      OccursPositive(bucket, i - 1, id);
      assert bucket[..i] == bucket[..i - 1] + [bucket[i - 1]];
      forall p, q | 0 <= p < q < i && bucket[p] == id && bucket[q] == id ensures Occurs(bucket, i, id) > 1 {
        if q == i - 1 {
          assert id in bucket[..i - 1];
        }
      }
    }
  }

  lemma {:induction false} TimesAtLeast(tried: seq<seq<nat>>, n: nat, k: nat, id: nat)
    requires k < n <= |tried|
    ensures Times(tried, n, id) >= Occurs(tried[k], |tried[k]|, id)
  {
    if k < n - 1 {
      TimesAtLeast(tried, n - 1, k, id);
    }
  }

  lemma {:induction false} TimesSomewhere(tried: seq<seq<nat>>, n: nat, id: nat) returns (k: nat)
    requires n <= |tried| && Times(tried, n, id) > 0
    ensures k < n && id in tried[k]
  {
    if Occurs(tried[n - 1], |tried[n - 1]|, id) > 0 {
      k := n - 1;
      OccursPositive(tried[k], |tried[k]|, id);
      assert tried[k][..|tried[k]|] == tried[k];
    } else {
      k := TimesSomewhere(tried, n - 1, id);
    }
  }

  lemma OnceInBucket(tried: seq<seq<nat>>, ids: set<nat>, k: nat)
    requires HoldOnce(tried, ids) && k < |tried|
    ensures NoDuplicates(tried[k]) && forall id :: id in tried[k] ==> id in ids
  {
    forall id | id in tried[k] ensures id in ids {
      OccursPositive(tried[k], |tried[k]|, id);
      assert tried[k][..|tried[k]|] == tried[k];
      TimesAtLeast(tried, |tried|, k, id);
    }
    forall p, q | 0 <= p < q < |tried[k]| ensures tried[k][p] != tried[k][q] {
      OccursPositive(tried[k], |tried[k]|, tried[k][p]);
      TimesAtLeast(tried, |tried|, k, tried[k][p]);
      assert Times(tried, |tried|, tried[k][p]) <= 1;
    }
  }

  lemma CheckedTried(h: Hashes, b: Book)
    requires HoldOnce(b.tried, TriedIds(b.info)) && Unchecked(h, b)
    ensures TriedOk(h, b.info, b.tried)
  {
    forall k | 0 <= k < |b.tried| ensures NoDuplicates(b.tried[k]) && forall id :: id in b.tried[k] ==> id in TriedIds(b.info) {
      OnceInBucket(b.tried, TriedIds(b.info), k);
    }
    forall id | id in TriedIds(b.info) ensures id in b.tried[h.TriedBucket(b.info[id].rec.addr)] {
      assert Times(b.tried, |b.tried|, id) == 1;
      var j := TimesSomewhere(b.tried, |b.tried|, id);
    }
  }

  lemma CheckedNew(h: Hashes, b: Book)
    requires CheckOk(b) && Unchecked(h, b)
    ensures NewOk(b.info, b.news, {})
  {
    forall id ensures (exists u :: 0 <= u < |b.news| && id in b.news[u]) ==> id in b.info {
      RefsPositive(b.news, |b.news|, id);
      assert Refs(b.news, |b.news|, id) == Wanted(NewCounts(b.info), id);
    }
    forall id | id in b.info ensures RefCountOk(b.info[id], Refs(b.news, |b.news|, id)) {
      assert EntryCode(b.addr, b.random, id, b.info[id]) == 0;
      assert Refs(b.news, |b.news|, id) == Wanted(NewCounts(b.info), id);
    }
  }

  lemma CheckedTimes(b: Book)
    requires CheckOk(b)
    ensures TimesOk(b.info)
  {
    forall id | id in b.info ensures TimeOk(b.info[id]) {
      assert EntryCode(b.addr, b.random, id, b.info[id]) == 0;
    }
  }

  lemma CheckedAddresses(h: Hashes, b: Book)
    requires EntriesOk(b.info, b.addr, b.random) && Unchecked(h, b)
    ensures AddrOk(b.info, b.addr)
  {
    forall id | id in b.info ensures b.addr[b.info[id].rec.addr.ip] == id {
      assert EntryCode(b.addr, b.random, id, b.info[id]) == 0;
    }
  }

  lemma CheckedCounts(h: Hashes, b: Book)
    requires CheckOk(b) && Unchecked(h, b)
    ensures CountsOk(b)
  {
    NewCounted(b.info);
  }

  lemma CheckedIsInv(h: Hashes, b: Book)
    requires CheckOk(b) && Unchecked(h, b)
    ensures Inv(h, b)
  {
    assert RandomOk(b.info, b.random) by { CheckedRandom(b); }
    assert TriedOk(h, b.info, b.tried) by { CheckedTried(h, b); }
    assert NewOk(b.info, b.news, {}) by { CheckedNew(h, b); }
    assert AddrOk(b.info, b.addr) by { CheckedAddresses(h, b); }
    assert TimesOk(b.info) by { CheckedTimes(b); }
    assert CountsOk(b) by { CheckedCounts(h, b); }
  }

  lemma InvIsUnchecked(h: Hashes, b: Book)
    requires Inv(h, b)
    ensures Unchecked(h, b)
  {
  }

  /** The check decides the invariant, but for exactly these facts. */
  lemma CheckDecides(h: Hashes, b: Book)
    ensures Inv(h, b) <==> CheckOk(b) && Unchecked(h, b)
  {
    if Inv(h, b) {
      InvIsChecked(h, b);
      InvIsUnchecked(h, b);
    } else if CheckOk(b) && Unchecked(h, b) {
      CheckedIsInv(h, b);
    }
  }
}
