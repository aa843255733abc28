/** The stochastic address manager: the operations, updating the tables in place. */
module AddrMan {
  import opened Options
  import opened AddrBook
  import opened AddrCheck

  const TRIED_ENTRIES_INSPECT_ON_EVICT: nat := 4
  const HORIZON_DAYS: int := 30
  const RETRIES: nat := 3
  const MAX_FAILURES: nat := 10
  const MIN_FAIL_DAYS: int := 7
  const GETADDR_MAX_PCT: nat := 23
  const GETADDR_MAX: nat := 2500

  /** When an entry may be deleted: it was not tried in the last minute, and its time is ten minutes ahead, missing, or a
      month old, or it never succeeded in three attempts, or not within the week in ten. */
  ghost predicate Deletable(rec: Record, now: int) {
    && (rec.lastTry == 0 || rec.lastTry < now - 60)
    && (rec.time > now + 600 || rec.time == 0 || rec.time < now - 2592000
        || (rec.lastSuccess == 0 && rec.attempts >= 3) || (rec.lastSuccess < now - 604800 && rec.attempts >= 10))
  }

  predicate IsTerrible(i: Info, now: int): (terrible: bool)
    ensures terrible <==> Deletable(i.rec, now)
  {
    if i.rec.lastTry != 0 && i.rec.lastTry >= now - 60 then false
    else if i.rec.time > now + 10 * 60 then true
    else if i.rec.time == 0 || now - i.rec.time > HORIZON_DAYS * 86400 then true
    else if i.rec.lastSuccess == 0 && i.rec.attempts >= RETRIES then true
    else now - i.rec.lastSuccess > MIN_FAIL_DAYS * 86400 && i.rec.attempts >= MAX_FAILURES
  }

  // ---- Which entry ShrinkNew evicts ----

  ghost predicate AnyDeletable(info: map<nat, Info>, bucket: set<nat>, now: int)
    requires bucket <= info.Keys
  {
    exists j :: j in bucket && Deletable(info[j].rec, now)
  }

  /** v may be evicted from a full bucket: the first deletable entry goes if there is one, and else, by the draw, any. */
  ghost predicate Evicted(info: map<nat, Info>, bucket: set<nat>, now: int, v: nat) {
    && bucket <= info.Keys && v in bucket
    && (AnyDeletable(info, bucket, now) ==>
          Deletable(info[v].rec, now) && forall j :: j in bucket && j < v ==> !Deletable(info[j].rec, now))
  }

  /** An entry that was tried in vain three times, not within the last minute, spares all entries that may stay. */
  lemma DeadGoFirst(info: map<nat, Info>, bucket: set<nat>, now: int, v: nat, j: nat)
    requires Evicted(info, bucket, now, v) && j in bucket
    requires info[j].rec.lastSuccess == 0 && info[j].rec.attempts >= 3
    requires info[j].rec.lastTry == 0 || info[j].rec.lastTry < now - 60
    ensures v <= j && (info[v].rec.lastTry == 0 || info[v].rec.lastTry < now - 60)
    ensures || info[v].rec.time > now + 600 || info[v].rec.time == 0 || info[v].rec.time < now - 2592000
            || (info[v].rec.lastSuccess == 0 && info[v].rec.attempts >= 3)
            || (info[v].rec.lastSuccess < now - 604800 && info[v].rec.attempts >= 10)
  {
    assert Deletable(info[j].rec, now);
  }

  /** The place of an id in the order of its bucket. */
  function Rank(bucket: set<nat>, id: nat): nat {
    |set j | j in bucket && j < id|
  }

  lemma RankIs(bucket: set<nat>, rest: set<nat>, id: nat)
    requires rest <= bucket && id in rest
    requires forall j :: j in rest ==> id <= j
    requires forall j :: j in bucket && j !in rest ==> j < id
    ensures Rank(bucket, id) == |bucket| - |rest|
  {
    assert (set j | j in bucket && j < id) == bucket - rest;
  }

  predicate FourDraws(n: seq<nat>, size: nat) {
    |n| == 4 && forall i :: 0 <= i < 4 ==> n[i] < size
  }

  lemma AmongFour(n: seq<nat>, x: nat)
    requires |n| == 4
    ensures x in n <==> x == n[0] || x == n[1] || x == n[2] || x == n[3]
  {
  }

  /** Of the entries of a bucket at the places drawn, v is the first of the oldest. */
  ghost predicate OldestSampled(info: map<nat, Info>, bucket: set<nat>, n: seq<nat>, v: nat)
    requires bucket <= info.Keys
  {
    OldestSampledOf(info, bucket, n, bucket, v)
  }

  ghost predicate OldestSampledOf(info: map<nat, Info>, bucket: set<nat>, n: seq<nat>, seen: set<nat>, v: nat)
    requires bucket <= info.Keys && seen <= bucket
  {
    && v in seen && Rank(bucket, v) in n
    && forall j :: j in seen && Rank(bucket, j) in n ==>
         info[v].rec.time < info[j].rec.time || (info[v].rec.time == info[j].rec.time && v <= j)
  }

  /** The best entry among those of a bucket that have been looked at, all but the rest. */
  ghost predicate Sampling(info: map<nat, Info>, bucket: set<nat>, n: seq<nat>, rest: set<nat>, best: Option<nat>) {
    && rest <= bucket <= info.Keys && (forall j, k :: j in bucket && j !in rest && k in rest ==> j < k)
    && match best
       case None => forall j :: j in bucket - rest ==> Rank(bucket, j) !in n
       case Some(v) => OldestSampledOf(info, bucket, n, bucket - rest, v)
  }

  /** One more entry is looked at; only one that was drawn and is older than the best so far replaces it. */
  lemma SamplingOneMore(info: map<nat, Info>, bucket: set<nat>, n: seq<nat>, rest: set<nat>, id: nat, best: Option<nat>)
    requires Sampling(info, bucket, n, rest, best) && id in rest && forall j :: j in rest ==> id <= j
    ensures Rank(bucket, id) == |bucket| - |rest|
    ensures var better := Rank(bucket, id) in n && (best.None? || info[id].rec.time < info[best.value].rec.time);
            Sampling(info, bucket, n, rest - {id}, if better then Some(id) else best)
  {
    RankIs(bucket, rest, id);
    assert bucket - (rest - {id}) == bucket - rest + {id};
  }

  // ---- SelectTried as a function of its random draws ----

  /** One pass over the first draws: entry draws[i] is swapped to place i and inspected there. The position kept
      for the oldest entry so far is the one it was drawn from. */
  function Inspect(bucket: seq<nat>, age: nat -> int, draws: seq<nat>, n: nat): (r: (seq<nat>, nat, nat))
    requires 1 <= n <= |draws| <= |bucket|
    requires forall i :: 0 <= i < |draws| ==> i <= draws[i] < |bucket|
    ensures |r.0| == |bucket| && r.1 < n && r.1 <= r.2 < |bucket|
  {
    if n == 1 then (SwapRandom(bucket, draws[0], 0), 0, draws[0]) else
      var (before, best, pos) := Inspect(bucket, age, draws, n - 1);
      var after := SwapRandom(before, draws[n - 1], n - 1);
      if age(after[n - 1]) < age(after[best]) then (after, n - 1, draws[n - 1]) else (after, best, pos)
  }

  /** Place r.1 of the shuffled bucket holds the first of the oldest inspected entries, and r.2 is where it was drawn from. */
  lemma {:induction false} InspectFindsOldest(bucket: seq<nat>, age: nat -> int, draws: seq<nat>, n: nat)
    requires 1 <= n <= |draws| <= |bucket|
    requires forall i :: 0 <= i < |draws| ==> i <= draws[i] < |bucket|
    ensures var (after, best, pos) := Inspect(bucket, age, draws, n);
            && pos == draws[best] && (forall i :: 0 <= i < n ==> age(after[best]) <= age(after[i]))
            && forall i :: 0 <= i < best ==> age(after[best]) < age(after[i])
  {
    if n > 1 {
      InspectFindsOldest(bucket, age, draws, n - 1);
    }
  }

  lemma {:induction false} InspectPermutes(bucket: seq<nat>, age: nat -> int, draws: seq<nat>, n: nat)
    requires 1 <= n <= |draws| <= |bucket| && NoDuplicates(bucket)
    requires forall i :: 0 <= i < |draws| ==> i <= draws[i] < |bucket|
    ensures NoDuplicates(Inspect(bucket, age, draws, n).0)
    ensures forall id :: id in Inspect(bucket, age, draws, n).0 <==> id in bucket
  {
    if n == 1 {
      SwapPermutes(bucket, draws[0], 0);
    } else {
      InspectPermutes(bucket, age, draws, n - 1);
      SwapPermutes(Inspect(bucket, age, draws, n - 1).0, draws[n - 1], n - 1);
    }
  }

  lemma SwapPermutes(s: seq<nat>, p: nat, q: nat)
    requires p < |s| && q < |s| && NoDuplicates(s)
    ensures NoDuplicates(SwapRandom(s, p, q))
    ensures forall id :: id in SwapRandom(s, p, q) <==> id in s
  {
    forall id | id in s ensures id in SwapRandom(s, p, q) {
      var i :| 0 <= i < |s| && s[i] == id;
      assert SwapRandom(s, p, q)[if i == p then q else if i == q then p else i] == id;
    }
  }

  /** Four places are drawn, or as many as there are, each at or after the place it is swapped to. */
  predicate Draws(draws: seq<nat>, size: nat) {
    && size > 0 && |draws| == (if size < TRIED_ENTRIES_INSPECT_ON_EVICT then size else TRIED_ENTRIES_INSPECT_ON_EVICT)
    && forall i :: 0 <= i < |draws| ==> i <= draws[i] < size
  }

  /** The position returned holds an entry at least as old as every entry inspected. */
  ghost predicate RightPosition(bucket: seq<nat>, age: nat -> int, draws: seq<nat>)
    requires Draws(draws, |bucket|)
  {
    var (after, best, pos) := Inspect(bucket, age, draws, |draws|);
    forall i :: 0 <= i < |draws| ==> age(after[pos]) <= age(after[i])
  }

  /** The bucket after the first n swaps, whatever the ages. */
  function ShuffledBy(bucket: seq<nat>, draws: seq<nat>, n: nat): (r: seq<nat>)
    requires n <= |draws| <= |bucket| && forall i :: 0 <= i < |draws| ==> i <= draws[i] < |bucket|
    ensures |r| == |bucket|
  {
    if n == 0 then bucket else SwapRandom(ShuffledBy(bucket, draws, n - 1), draws[n - 1], n - 1)
  }

  lemma {:induction false} InspectShuffles(bucket: seq<nat>, age: nat -> int, draws: seq<nat>, n: nat)
    requires 1 <= n <= |draws| <= |bucket| && forall i :: 0 <= i < |draws| ==> i <= draws[i] < |bucket|
    ensures Inspect(bucket, age, draws, n).0 == ShuffledBy(bucket, draws, n)
  {
    if n > 1 {
      InspectShuffles(bucket, age, draws, n - 1);
    } else {
      assert ShuffledBy(bucket, draws, 0) == bucket;
    }
  }

  lemma {:induction false} DrawnInPlace(bucket: seq<nat>, draws: seq<nat>, m: nat, n: nat)
    requires m <= n <= |draws| <= |bucket| && forall i :: 0 <= i < |draws| ==> i <= draws[i] < |bucket|
    requires forall i :: m <= i < n ==> draws[i] == i
    ensures ShuffledBy(bucket, draws, n) == ShuffledBy(bucket, draws, m)
    decreases n
  {
    if m < n {
      DrawnInPlace(bucket, draws, m, n - 1);
    }
  }

  /** The position is right whatever the ages exactly if every entry was drawn where it stood. */
  lemma RightForAllAges(bucket: seq<nat>, draws: seq<nat>)
    requires Draws(draws, |bucket|) && NoDuplicates(bucket)
    ensures (forall age: nat -> int :: RightPosition(bucket, age, draws)) <==> forall i :: 0 <= i < |draws| ==> draws[i] == i
  {
    if j :| 0 <= j < |draws| && draws[j] != j {
      var after := ShuffledBy(bucket, draws, |draws|);
      var age := (id: nat) => if id == after[j] then 0 else 1;
      InspectShuffles(bucket, age, draws, |draws|);
      InspectPermutes(bucket, age, draws, |draws|);
      InspectFindsOldest(bucket, age, draws, |draws|);
      assert age(after[j]) == 0 && age(after[draws[j]]) == 1;
      assert !RightPosition(bucket, age, draws);
    } else {
      forall age: nat -> int ensures RightPosition(bucket, age, draws) {
        InspectFindsOldest(bucket, age, draws, |draws|);
      }
    }
  }

  predicate SameAge(bucket: seq<nat>, age: nat -> int) {
    forall i :: 0 <= i < |bucket| ==> age(bucket[i]) == age(bucket[0])
  }

  /** The position is right whatever is drawn exactly if all entries of the bucket are equally old; or, of two, the
      second is not the older one. */
  lemma RightForAllDraws(bucket: seq<nat>, age: nat -> int)
    requires bucket != []
    ensures (forall draws :: Draws(draws, |bucket|) ==> RightPosition(bucket, age, draws))
       <==> SameAge(bucket, age) || (|bucket| == 2 && age(bucket[0]) <= age(bucket[1]))
  {
    if SameAge(bucket, age) {
      forall draws | Draws(draws, |bucket|) ensures RightPosition(bucket, age, draws) {
        InspectMembers(bucket, age, draws, |draws|);
        var after := Inspect(bucket, age, draws, |draws|).0;
        assert forall i :: 0 <= i < |after| ==> after[i] in bucket;
      }
    } else if |bucket| == 2 && age(bucket[0]) <= age(bucket[1]) {
      forall draws | Draws(draws, |bucket|) ensures RightPosition(bucket, age, draws) {
        OfTwo(bucket, age, draws);
      }
    } else {
      var draws := WrongDraws(bucket, age);
    }
  }

  lemma OfTwo(bucket: seq<nat>, age: nat -> int, draws: seq<nat>)
    requires |bucket| == 2 && Draws(draws, 2) && age(bucket[0]) <= age(bucket[1])
    ensures RightPosition(bucket, age, draws)
  {
    InspectFindsOldest(bucket, age, draws, 2);
    InspectShuffles(bucket, age, draws, 2);
    assert draws[1] == 1;
    DrawnInPlace(bucket, draws, 1, 2);
    assert ShuffledBy(bucket, draws, 1) == SwapRandom(bucket, draws[0], 0);
  }

  /** The first two draws; the rest are drawn where they stand. */
  function TwoDraws(size: nat, first: nat, second: nat): (draws: seq<nat>)
    requires size > 0 && first < size && (size > 1 ==> 1 <= second < size)
    ensures Draws(draws, size) && draws[0] == first && (size > 1 ==> draws[1] == second)
    ensures forall i :: 2 <= i < |draws| ==> draws[i] == i
  {
    var count := if size < TRIED_ENTRIES_INSPECT_ON_EVICT then size else TRIED_ENTRIES_INSPECT_ON_EVICT;
    seq(count, i requires 0 <= i < count => if i == 0 then first else if i == 1 then second else i)
  }

  lemma ShuffledByTwo(bucket: seq<nat>, draws: seq<nat>)
    requires |bucket| > 1 && Draws(draws, |bucket|) && forall i :: 2 <= i < |draws| ==> draws[i] == i
    ensures ShuffledBy(bucket, draws, |draws|) == SwapRandom(SwapRandom(bucket, draws[0], 0), draws[1], 1)
  {
    DrawnInPlace(bucket, draws, 2, |draws|);
    assert ShuffledBy(bucket, draws, 1) == SwapRandom(ShuffledBy(bucket, draws, 0), draws[0], 0);
    assert ShuffledBy(bucket, draws, 2) == SwapRandom(ShuffledBy(bucket, draws, 1), draws[1], 1);
  }

  /** If an older entry than the one at the position returned is at place i of those inspected, the position is wrong. */
  lemma YoungerThan(bucket: seq<nat>, age: nat -> int, draws: seq<nat>, i: nat)
    requires Draws(draws, |bucket|) && i < |draws|
    requires var (after, best, pos) := Inspect(bucket, age, draws, |draws|);
             age(after[i]) < age(after[pos])
    ensures !RightPosition(bucket, age, draws)
  {
  }

  lemma {:induction false} LeastAge(bucket: seq<nat>, age: nat -> int, n: nat) returns (p: nat)
    requires 0 < n <= |bucket|
    ensures p < n && forall i :: 0 <= i < n ==> age(bucket[p]) <= age(bucket[i])
  {
    if n == 1 {
      p := 0;
    } else {
      p := LeastAge(bucket, age, n - 1);
      if age(bucket[n - 1]) < age(bucket[p]) {
        p := n - 1;
      }
    }
  }

  /** Draws for which a younger entry than one inspected stands at the position returned. */
  lemma WrongDraws(bucket: seq<nat>, age: nat -> int) returns (draws: seq<nat>)
    requires bucket != [] && !SameAge(bucket, age) && !(|bucket| == 2 && age(bucket[0]) <= age(bucket[1]))
    ensures Draws(draws, |bucket|) && !RightPosition(bucket, age, draws)
  {
    var p := LeastAge(bucket, age, |bucket|);
    if age(bucket[p]) < age(bucket[0]) {
      draws := WrongAtFirst(bucket, age, p);
    } else if age(bucket[0]) < age(bucket[1]) {
      draws := WrongAtThird(bucket, age);
    } else {
      var y :| 0 <= y < |bucket| && age(bucket[y]) != age(bucket[0]);
      draws := WrongAtSecond(bucket, age, y);
    }
  }

  lemma WrongAtFirst(bucket: seq<nat>, age: nat -> int, p: nat) returns (draws: seq<nat>)
    requires p < |bucket| && age(bucket[p]) < age(bucket[0])
    requires forall i :: 0 <= i < |bucket| ==> age(bucket[p]) <= age(bucket[i])
    ensures Draws(draws, |bucket|) && !RightPosition(bucket, age, draws)
  {
    draws := TwoDraws(|bucket|, p, 1);
    InspectFindsOldest(bucket, age, draws, |draws|);
    InspectMembers(bucket, age, draws, |draws|);
    InspectShuffles(bucket, age, draws, |draws|);
    ShuffledByTwo(bucket, draws);
    var (after, best, pos) := Inspect(bucket, age, draws, |draws|);
    assert after[0] == bucket[p] && after[p] == bucket[0];
    assert after[best] in after;
    YoungerThan(bucket, age, draws, 0);
  }

  lemma WrongAtThird(bucket: seq<nat>, age: nat -> int) returns (draws: seq<nat>)
    requires |bucket| > 2 && age(bucket[0]) < age(bucket[1])
    requires forall i :: 0 <= i < |bucket| ==> age(bucket[0]) <= age(bucket[i])
    ensures Draws(draws, |bucket|) && !RightPosition(bucket, age, draws)
  {
    draws := TwoDraws(|bucket|, 2, 2);
    InspectFindsOldest(bucket, age, draws, |draws|);
    InspectMembers(bucket, age, draws, |draws|);
    InspectShuffles(bucket, age, draws, |draws|);
    ShuffledByTwo(bucket, draws);
    var (after, best, pos) := Inspect(bucket, age, draws, |draws|);
    assert after[1] == bucket[0] && after[2] == bucket[1];
    assert after[best] in after;
    YoungerThan(bucket, age, draws, 1);
  }

  lemma SwappedSecond(bucket: seq<nat>, y: nat)
    requires 2 <= y < |bucket|
    ensures var after := SwapRandom(SwapRandom(bucket, 1, 0), y, 1);
            after[0] == bucket[1] && after[1] == bucket[y]
  {
  }

  lemma WrongAtSecond(bucket: seq<nat>, age: nat -> int, y: nat) returns (draws: seq<nat>)
    requires 2 <= y < |bucket| && age(bucket[1]) == age(bucket[0]) < age(bucket[y])
    requires forall i :: 0 <= i < |bucket| ==> age(bucket[0]) <= age(bucket[i])
    ensures Draws(draws, |bucket|) && !RightPosition(bucket, age, draws)
  {
    draws := TwoDraws(|bucket|, 1, y);
    InspectFindsOldest(bucket, age, draws, |draws|);
    InspectMembers(bucket, age, draws, |draws|);
    InspectShuffles(bucket, age, draws, |draws|);
    ShuffledByTwo(bucket, draws);
    var (after, best, pos) := Inspect(bucket, age, draws, |draws|);
    SwappedSecond(bucket, y);
    assert after[best] in after;
    YoungerThan(bucket, age, draws, 0);
  }

  /** Of entries 1 and 2, 2 is older; drawn from position 1 it moves to 0, and position 1, with entry 1, is returned. */
  lemma SelectedNotOldest()
    ensures var age := (id: nat) => if id == 1 then 5 else 3;
            Inspect([1, 2], age, [1, 1], 2) == ([2, 1], 0, 1) && Draws([1, 1], 2) && !RightPosition([1, 2], age, [1, 1])
  {
    var age := (id: nat) => if id == 1 then 5 else 3;
    var bucket: seq<nat>, after: seq<nat>, draws: seq<nat> := [1, 2], [2, 1], [1, 1];
    assert SwapRandom(bucket, 1, 0) == after;
    assert Inspect(bucket, age, draws, 1) == (after, 0, 1);
    assert SwapRandom(after, 1, 1) == after;
    assert Inspect(bucket, age, draws, 2) == (after, 0, 1);
  }

  class CAddrMan {
    const hashes: Hashes
    const isRoutable: NetAddr -> bool
    var nIdCount: nat
    var mapInfo: map<nat, Info>
    var mapAddr: map<NetAddr, nat>
    var vRandom: seq<nat>
    var nTried: int
    var vvTried: seq<seq<nat>>
    var nNew: int
    var vvNew: seq<set<nat>>

    function State(): Book reads this {
      Book(nIdCount, mapInfo, mapAddr, vRandom, vvTried, vvNew, nTried, nNew)
    }

    ghost predicate Valid() reads this {
      Inv(hashes, State())
    }

    constructor (h: Hashes, routable: NetAddr -> bool)
      ensures Valid() && mapInfo == map[] && mapAddr == map[]
    {
      hashes, isRoutable := h, routable;
      nIdCount, nTried, nNew := 0, 0, 0;
      mapInfo, mapAddr, vRandom := map[], map[], [];
      vvTried := seq(TRIED_BUCKET_COUNT, i => []);
      vvNew := seq(NEW_BUCKET_COUNT, i => {});
      new;
      assert TriedIds(mapInfo) == {};
    }

    function Find(a: NetAddr): (r: Option<nat>)
      reads this
      requires Valid()
      ensures r.Some? ==> r.value in mapInfo && mapInfo[r.value].rec.addr.ip == a
      ensures r == None <==> forall id :: id in mapInfo ==> mapInfo[id].rec.addr.ip != a
    {
      if a in mapAddr then Some(mapAddr[a]) else None
    }

    method SwapRandom(pos1: nat, pos2: nat)
      requires pos1 < |vRandom| && pos2 < |vRandom| && vRandom[pos1] in mapInfo && vRandom[pos2] in mapInfo
      modifies `mapInfo, `vRandom
      ensures mapInfo == SwapInfo(old(mapInfo), old(vRandom), pos1, pos2)
      ensures vRandom == AddrBook.SwapRandom(old(vRandom), pos1, pos2)
    {
      if pos1 == pos2 {
        return;
      }
      var id1, id2 := vRandom[pos1], vRandom[pos2];
      mapInfo := mapInfo[id1 := mapInfo[id1].(randomPos := pos2)];
      mapInfo := mapInfo[id2 := mapInfo[id2].(randomPos := pos1)];
      vRandom := vRandom[pos1 := id2];
      vRandom := vRandom[pos2 := id1];
    }

    /** The deletion both halves of ShrinkNew share: one reference less, and the entry goes with the last one. */
    method Unreference(u: nat, id: nat)
      requires RandomOk(mapInfo, vRandom) && u < |vvNew| && id in mapInfo
      modifies this
      ensures State() == Drop(old(State()), u, id)
    {
      if mapInfo[id].refCount == 1 {
        var ip := mapInfo[id].rec.addr.ip;
        SwapRandom(mapInfo[id].randomPos, |vRandom| - 1);
        vRandom := vRandom[..|vRandom| - 1];
        mapAddr := mapAddr - {ip};
        mapInfo := mapInfo - {id};
        nNew := nNew - 1;
      } else {
        mapInfo := mapInfo[id := mapInfo[id].(refCount := mapInfo[id].refCount - 1)];
      }
      vvNew := vvNew[u := vvNew[u] - {id}];
    }

    /** The first entry of a bucket, by id, that is terrible. */
    method FirstTerrible(vNew: set<nat>, now: int) returns (it: Option<nat>)
      requires vNew <= mapInfo.Keys
      ensures it.Some? ==> it.value in vNew && Deletable(mapInfo[it.value].rec, now)
      ensures it.Some? ==> forall j :: j in vNew && j < it.value ==> !Deletable(mapInfo[j].rec, now)
      ensures it.None? ==> forall j :: j in vNew ==> !Deletable(mapInfo[j].rec, now)
    {
      var rest := vNew;
      while rest != {}
        invariant rest <= vNew
        invariant forall j :: j in vNew && j !in rest ==> !Deletable(mapInfo[j].rec, now)
        decreases rest
      {
        var id := Least(rest);
        if IsTerrible(mapInfo[id], now) {
          return Some(id);
        }
        rest := rest - {id};
      }
      return None;
    }

    /** One entry of the bucket, at place nI in the order of ids. */
    static method LookAt(info: map<nat, Info>, vNew: set<nat>, n: seq<nat>, ghost rest: set<nat>, best: Option<nat>, nI: nat, id: nat)
      returns (better: Option<nat>)
      requires Sampling(info, vNew, n, rest, best) && FourDraws(n, |vNew|) && nI + |rest| == |vNew|
      requires id in rest && forall j :: j in rest ==> id <= j
      ensures Sampling(info, vNew, n, rest - {id}, better)
      ensures best.Some? || nI == n[0] ==> better.Some?
    {
      SamplingOneMore(info, vNew, n, rest, id, best);
      AmongFour(n, nI);
      better := best;
      if nI == n[0] || nI == n[1] || nI == n[2] || nI == n[3] {
        if best.None? || info[id].rec.time < info[best.value].rec.time {
          better := Some(id);
        }
      }
    }

    /** The oldest of the entries at the places drawn, in the order of ids. */
    method OldestOfFour(vNew: set<nat>, n: seq<nat>) returns (nOldest: nat)
      requires vNew <= mapInfo.Keys && FourDraws(n, |vNew|)
      ensures OldestSampled(mapInfo, vNew, n, nOldest)
    {
      var nI := 0;
      var best: Option<nat> := None;
      var rest := vNew;
      while rest != {}
        invariant nI + |rest| == |vNew| && Sampling(mapInfo, vNew, n, rest, best)
        invariant nI > n[0] ==> best.Some?
        decreases rest
      {
        var id := Least(rest);
        best := LookAt(mapInfo, vNew, n, rest, best, nI, id);
        nI := nI + 1;
        rest := rest - {id};
      }
      assert vNew - rest == vNew;
      nOldest := best.value;
    }

    /** Makes room in a new bucket: the first terrible entry goes, or else the oldest of four drawn at random. */
    method ShrinkNew(u: nat, now: int) returns (r: int, ghost victim: nat, ghost draws: seq<nat>)
      requires RandomOk(mapInfo, vRandom) && u < |vvNew| && vvNew[u] != {} && vvNew[u] <= mapInfo.Keys
      modifies this
      ensures Evicted(old(mapInfo), old(vvNew)[u], now, victim) && State() == Drop(old(State()), u, victim)
      ensures r == if exists j :: j in old(vvNew)[u] && Deletable(old(mapInfo)[j].rec, now) then 0 else 1
      ensures r == 1 ==> FourDraws(draws, |old(vvNew)[u]|) && OldestSampled(old(mapInfo), old(vvNew)[u], draws, victim)
    {
      var terrible := FirstTerrible(vvNew[u], now);
      if terrible.Some? {
        victim, draws, r := terrible.value, [], 0;
        Unreference(u, terrible.value);
      } else {
        var n0: nat, n1: nat, n2: nat, n3: nat :| n0 < |vvNew[u]| && n1 < |vvNew[u]| && n2 < |vvNew[u]| && n3 < |vvNew[u]|;
        draws := [n0, n1, n2, n3];
        var nOldest := OldestOfFour(vvNew[u], [n0, n1, n2, n3]);
        victim, r := nOldest, 1;
        Unreference(u, nOldest);
      }
    }

    /** Shuffles the first few entries of a bucket in place and picks the position of one to evict; the random
        draws are recorded. */
    method Shuffle(bucket: seq<nat>) returns (vTried: seq<nat>, pos: nat, ghost draws: seq<nat>)
      requires bucket != [] && forall id :: id in bucket ==> id in mapInfo
      ensures Draws(draws, |bucket|) && (vTried, pos) == Chosen(bucket, mapInfo, draws)
    {
      draws, vTried := [], bucket;
      pos := 0;
      var nOldest := 0;
      var i := 0;
      while i < TRIED_ENTRIES_INSPECT_ON_EVICT && i < |vTried|
        invariant 0 <= i <= TRIED_ENTRIES_INSPECT_ON_EVICT && i <= |bucket| && |draws| == i && |vTried| == |bucket|
        invariant forall id :: id in vTried ==> id in mapInfo
        invariant Tracks(bucket, mapInfo, draws, vTried, pos, nOldest)
      {
        var nPos: nat :| i <= nPos < |vTried|;
        TracksOneMore(bucket, mapInfo, draws, vTried, pos, nOldest, nPos);
        draws := draws + [nPos];
        var nTemp := vTried[nPos];
        SwapMembers(vTried, nPos, i);
        vTried := vTried[nPos := vTried[i]][i := nTemp];
        if i == 0 || mapInfo[nTemp].rec.lastSuccess < mapInfo[nOldest].rec.lastSuccess {
          nOldest, pos := nTemp, nPos;
        }
        i := i + 1;
      }
    }

    method SelectTried(k: nat) returns (pos: nat, ghost draws: seq<nat>)
      requires k < |vvTried| && vvTried[k] != [] && forall id :: id in vvTried[k] ==> id in mapInfo
      modifies `vvTried
      ensures Draws(draws, |old(vvTried)[k]|)
      ensures vvTried == old(vvTried)[k := Chosen(old(vvTried)[k], mapInfo, draws).0]
      ensures pos == Chosen(old(vvTried)[k], mapInfo, draws).1
      ensures IsLeastRecent(mapInfo, vvTried[k], draws, pos)
    {
      var bucket;
      bucket, pos, draws := Shuffle(vvTried[k]);
      ChosenIsLeastRecent(mapInfo, vvTried[k], draws);
      vvTried := vvTried[k := bucket];
    }

    /** Takes an entry out of every new bucket, one reference at a time. */
    method EraseFromNew(id: nat)
      requires id in mapInfo
      modifies `mapInfo, `vvNew
      ensures vvNew == Purged(old(vvNew), id)
      ensures mapInfo == old(mapInfo)[id := old(mapInfo)[id].(refCount := old(mapInfo)[id].refCount - Refs(old(vvNew), |old(vvNew)|, id))]
    {
      var n := 0;
      while n < |vvNew|
        invariant 0 <= n <= |vvNew| == |old(vvNew)|
        invariant forall u :: 0 <= u < |vvNew| ==> vvNew[u] == if u < n then old(vvNew)[u] - {id} else old(vvNew)[u]
        invariant mapInfo == old(mapInfo)[id := old(mapInfo)[id].(refCount := old(mapInfo)[id].refCount - Refs(old(vvNew), n, id))]
      {
        if id in vvNew[n] {
          vvNew := vvNew[n := vvNew[n] - {id}];
          mapInfo := mapInfo[id := mapInfo[id].(refCount := mapInfo[id].refCount - 1)];
        }
        n := n + 1;
      }
    }

    /** The entry at pos of a tried bucket goes back to the new buckets, and id takes its place. */
    method Evict(id: nat, origin: nat, k: nat, pos: nat)
      requires id in mapInfo && origin < |vvNew| == NEW_BUCKET_COUNT && k < |vvTried|
      requires pos < |vvTried[k]| && vvTried[k][pos] in mapInfo
      modifies this
      ensures State() == Exchange(hashes, old(State()), id, origin, k, old(vvTried[k]), pos)
    {
      var evicted := vvTried[k][pos];
      var u := hashes.NewBucket(mapInfo[evicted].rec.addr.ip, mapInfo[evicted].rec.source);
      mapInfo := mapInfo[evicted := mapInfo[evicted].(inTried := false, refCount := 1)];
      if |vvNew[u]| < NEW_BUCKET_SIZE {
        vvNew := vvNew[u := vvNew[u] + {evicted}];
      } else {
        vvNew := vvNew[origin := vvNew[origin] + {evicted}];
      }
      nNew := nNew + 1;
      vvTried := vvTried[k := Replace(vvTried[k], pos, id)];
      mapInfo := mapInfo[id := mapInfo[id].(inTried := true)];
    }

    /** The tried bucket is full: an entry is selected and evicted. */
    method ReplaceTried(id: nat, origin: nat, k: nat) returns (ghost draws: seq<nat>)
      requires id in mapInfo && origin < |vvNew| == NEW_BUCKET_COUNT && k < |vvTried| && vvTried[k] != []
      requires forall j :: j in vvTried[k] ==> j in mapInfo
      modifies this
      ensures CanExchange(old(State()), id, origin, k, draws)
      ensures State() == Exchanged(hashes, old(State()), id, origin, k, draws)
    {
      var pos;
      pos, draws := SelectTried(k);
      ChosenMembers(old(vvTried)[k], mapInfo, draws);
      ghost var c := State();
      Evict(id, origin, k, pos);
      ExchangeAfterSelect(hashes, old(State()), c, id, origin, k, draws);
    }

    /** The body of MakeTried, which needs only a little of the invariant. */
    method Relocate(id: nat, origin: nat, k: nat) returns (ghost draws: seq<nat>)
      requires id in mapInfo && origin < |vvNew| == NEW_BUCKET_COUNT && k < |vvTried|
      requires mapInfo[id].refCount == Refs(vvNew, |vvNew|, id) && !mapInfo[id].inTried
      requires forall j :: j in vvTried[k] ==> j in mapInfo
      modifies this
      ensures if |old(vvTried)[k]| < TRIED_BUCKET_SIZE then State() == PromoteInto(old(State()), id, k)
              else CanExchange(Unplaced(old(State()), id), id, origin, k, draws)
                   && State() == Exchanged(hashes, Unplaced(old(State()), id), id, origin, k, draws)
    {
      draws := [];
      EraseFromNew(id);
      nNew := nNew - 1;
      assert mapInfo[id].refCount == 0;
      if |vvTried[k]| < TRIED_BUCKET_SIZE {
        vvTried := vvTried[k := vvTried[k] + [id]];
        nTried := nTried + 1;
        mapInfo := mapInfo[id := mapInfo[id].(inTried := true)];
      } else {
        draws := ReplaceTried(id, origin, k);
      }
    }

    /** Moves an entry from the new buckets to its tried bucket; a full bucket sends one of its entries back. */
    method MakeTried(id: nat, origin: nat)
      requires Movable(State(), id) && origin < |vvNew|
      modifies this
      ensures MovedToTried(hashes, old(State()), State(), id, origin)
    {
      var k := hashes.TriedBucket(mapInfo[id].rec.addr);
      var draws := Relocate(id, origin, k);
    }

    /** Overwrites the record of an entry without moving it. */
    method SetRecord(id: nat, rec: Record)
      requires id in mapInfo
      modifies `mapInfo
      ensures State() == WithRecord(old(State()), id, rec)
    {
      mapInfo := mapInfo[id := mapInfo[id].(rec := rec)];
    }

    /** A new bucket that holds the entry, searched from a random start. */
    method FindNewBucket(id: nat) returns (u: nat)
      requires |vvNew| == NEW_BUCKET_COUNT && Refs(vvNew, |vvNew|, id) > 0
      ensures u < |vvNew| && id in vvNew[u]
    {
      RefsPositive(vvNew, |vvNew|, id);
      var nRnd: nat :| nRnd < |vvNew|;
      ghost var v :| 0 <= v < |vvNew| && id in vvNew[v];
      var n := 0;
      while n < |vvNew|
        invariant 0 <= n <= |vvNew|
        invariant (if v >= nRnd then v - nRnd else v + |vvNew| - nRnd) >= n
      {
        var nB := (n + nRnd) % |vvNew|;
        if id in vvNew[nB] {
          return nB;
        }
        n := n + 1;
      }
      assert false;   // an untried entry is always in some bucket
    }

    /** The address is known, and as this very service. */
    predicate KnownAs(a: Service)
      reads this
      requires Valid()
    {
      Find(a.ip).Some? && mapInfo[Find(a.ip).value].rec.addr == a
    }

    /** Marks an address as good: its times are updated, and unless it is there already it moves to the tried table. This
        keeps the invariant exactly if the time is positive, or the address is not known as this very service. */
    method Good_(a: Service, time: int)
      requires Valid()
      modifies this
      ensures Valid() <==> (old(KnownAs(a)) ==> time > 0)
      ensures var id := old(Find(a.ip));
              if id.None? || old(mapInfo)[id.value].rec.addr != a then State() == old(State())
              else var b := WithRecord(old(State()), id.value, Seen(old(mapInfo)[id.value].rec, time));
                   if old(mapInfo)[id.value].inTried then State() == b
                   else exists origin :: 0 <= origin < |b.news| && id.value in b.news[origin]
                                         && MovedToTried(hashes, b, State(), id.value, origin)
    {
      var found := Find(a.ip);
      if found.None? {
        return;
      }
      var id := found.value;
      if mapInfo[id].rec.addr != a {
        return;
      }
      var rec := Seen(mapInfo[id].rec, time);
      RecordInvIff(hashes, State(), id, rec);
      InvIsMovable(hashes, State(), id, rec);
      assert RefCountOk(mapInfo[id], Refs(vvNew, |vvNew|, id));
      SetRecord(id, rec);
      if mapInfo[id].inTried {
        return;
      }
      var u := FindNewBucket(id);
      ghost var b := State();
      MakeTried(id, u);
      if time > 0 {
        MovedKeepsInv(hashes, b, State(), id, u);
      } else {
        MovedKeepsRecord(hashes, b, State(), id, u);
      }
    }

    /** This keeps the invariant exactly if the time is not negative, or the address is not known as this very service. */
    method Attempt_(a: Service, time: int)
      requires Valid()
      modifies `mapInfo
      ensures Valid() <==> (old(KnownAs(a)) ==> time >= 0)
      ensures var id := old(Find(a.ip));
              if id.None? || old(mapInfo)[id.value].rec.addr != a then State() == old(State())
              else var rec := old(mapInfo)[id.value].rec;
                   State() == WithRecord(old(State()), id.value, Attempted(rec, time))
    {
      var found := Find(a.ip);
      if found.None? || mapInfo[found.value].rec.addr != a {
        return;
      }
      var rec := Attempted(mapInfo[found.value].rec, time);
      RecordInvIff(hashes, State(), found.value, rec);
      SetRecord(found.value, rec);
    }

    method Connected_(a: Service, time: int)
      requires Valid()
      modifies `mapInfo
      ensures Valid()
      ensures var id := old(Find(a.ip));
              if id.None? || old(mapInfo)[id.value].rec.addr != a then State() == old(State())
              else var rec := old(mapInfo)[id.value].rec;
                   State() == WithRecord(old(State()), id.value, if time - rec.time > 20 * 60 then rec.(time := time) else rec)
    {
      var found := Find(a.ip);
      if found.None? || mapInfo[found.value].rec.addr != a {
        return;
      }
      var rec := mapInfo[found.value].rec;
      assert mapInfo[found.value := mapInfo[found.value].(rec := rec)] == mapInfo;
      if time - rec.time > 20 * 60 {
        RecordKeepsInv(hashes, State(), found.value, rec.(time := time));
        SetRecord(found.value, rec.(time := time));
      }
    }

    /** Puts the entry, already counted once more, into a new bucket; a full bucket is shrunk first. */
    method Place(id: nat, u: nat, now: int)
      requires RandomOk(mapInfo, vRandom) && u < |vvNew| && vvNew[u] <= mapInfo.Keys
      modifies this
      ensures Placed(old(State()), State(), id, u, now)
    {
      if |vvNew[u]| == NEW_BUCKET_SIZE {
        var r;
        ghost var victim, draws;
        r, victim, draws := ShrinkNew(u, now);
        assert RoomMade(old(State()), State(), u, now);
      }
      ghost var c := State();
      vvNew := vvNew[u := vvNew[u] + {id}];
      assert State() == Insert(c, u, id);
    }

    /** A new entry, already counted for its first bucket. */
    method Create(i: Info) returns (id: nat)
      requires i.randomPos == |vRandom|
      modifies this
      ensures id == old(nIdCount) && State() == Created(old(State()), i)
    {
      id := nIdCount;
      nIdCount := nIdCount + 1;
      mapInfo := mapInfo[id := i];
      mapAddr := mapAddr[i.rec.addr.ip := id];
      vRandom := vRandom + [id];
      nNew := nNew + 1;
    }

    /** Counts the entry once more and places it in new bucket u, unless it is there. */
    method AddTo(id: nat, u: nat, now: int)
      requires RandomOk(mapInfo, vRandom) && u < |vvNew| && vvNew[u] <= mapInfo.Keys && id in mapInfo
      modifies this
      ensures if id in old(vvNew[u]) then State() == old(State())
              else Placed(CountRef(old(State()), id), State(), id, u, now)
    {
      if id !in vvNew[u] {
        RandomUpdate(mapInfo, vRandom, id, mapInfo[id].(refCount := mapInfo[id].refCount + 1));
        mapInfo := mapInfo[id := mapInfo[id].(refCount := mapInfo[id].refCount + 1)];
        assert State() == CountRef(old(State()), id);
        Place(id, u, now);
      }
    }

    /** Hears of a known address again. */
    method AddKnown(id: nat, a: Address, source: NetAddr, penalty: int, now: int) returns (ghost draw: nat)
      requires Valid() && id in mapInfo
      modifies this
      ensures Valid()
      ensures HeardAgain(hashes, old(State()), State(), id, a, source, penalty, now, draw)
    {
      draw := 0;
      var rec := Refreshed(mapInfo[id].rec, a, penalty, now);
      RecordKeepsInv(hashes, State(), id, rec);
      SetRecord(id, rec);
      var i := mapInfo[id];
      if a.time == 0 || (i.rec.time != 0 && a.time <= i.rec.time) {
        return;
      }
      if i.inTried {
        return;
      }
      if i.refCount == NEW_BUCKETS_PER_ADDRESS {
        return;
      }
      assert RefCountOk(i, Refs(vvNew, |vvNew|, id));
      var passedOver;
      passedOver, draw := IsPassedOver(i.refCount);
      if passedOver {
        return;
      }
      Gain(id, source, now);
    }

    /** With more references one more gets less likely, by half each time; the first of all is certain. */
    static method IsPassedOver(refCount: int) returns (passedOver: bool, ghost draw: nat)
      ensures draw < TwoTo(refCount) && (passedOver <==> draw != 0)
    {
      var nFactor := 1;
      var n := 0;
      while n < refCount
        invariant n <= (if refCount > 0 then refCount else 0) && nFactor == TwoTo(n)
      {
        nFactor := nFactor * 2;
        n := n + 1;
      }
      draw := 0;
      passedOver := false;
      if nFactor > 1 {
        var drawn: nat :| drawn < nFactor;
        draw, passedOver := drawn, drawn != 0;
      }
    }

    /** One more new bucket for an entry, unless it is in it. */
    method Gain(id: nat, source: NetAddr, now: int)
      requires Valid() && id in mapInfo && !mapInfo[id].inTried && mapInfo[id].refCount < NEW_BUCKETS_PER_ADDRESS
      modifies this
      ensures Valid() && Gained(hashes, old(State()), State(), id, source, now)
    {
      ghost var b := State();
      var u := hashes.NewBucket(mapInfo[id].rec.addr.ip, source);
      AddTo(id, u, now);
      GainedKeepsInv(hashes, b, State(), id, source, now);
    }

    /** Hears of an unknown address. */
    method AddUnknown(a: Address, source: NetAddr, penalty: int, now: int)
      requires Valid() && a.service.ip !in mapAddr
      modifies this
      ensures Valid()
      ensures Placed(Created(old(State()), Fresh(a, source, penalty, old(|vRandom|))), State(), old(nIdCount),
                     hashes.NewBucket(a.service.ip, source), now)
    {
      ghost var b := State();
      var i := Fresh(a, source, penalty, |vRandom|);
      var u := hashes.NewBucket(a.service.ip, source);
      CreatedKeepsInv(hashes, b, i, u);
      var id := Create(i);
      Place(id, u, now);
      PlacedKeepsInv(hashes, Created(b, i), State(), id, u, now);
    }

    /** Adds an address to the new table. */
    method Add_(a: Address, source: NetAddr, penalty: int, now: int) returns (fNew: bool, ghost draw: nat)
      requires Valid()
      modifies this
      ensures Valid()
      ensures fNew <==> isRoutable(a.service.ip) && a.service.ip !in old(mapAddr)
      ensures !isRoutable(a.service.ip) ==> State() == old(State())
      ensures isRoutable(a.service.ip) ==> Added(hashes, old(State()), State(), a, source, penalty, now, draw)
    {
      draw := 0;
      if !isRoutable(a.service.ip) {
        return false, draw;
      }
      var found := Find(a.service.ip);
      if found.Some? {
        draw := AddKnown(found.value, a, source, penalty, now);
        fNew := false;
      } else {
        AddUnknown(a, source, penalty, now);
        fNew := true;
      }
    }

    /** The debug build's consistency check. Looking an address up in mapAddr adds it, with id 0, if it is missing. */
    method Check_() returns (r: int)
      modifies `mapAddr
      ensures r == 0 <==> CheckOk(old(State()))
      ensures old(Valid()) ==> r == 0 && mapAddr == old(mapAddr)
    {
      ghost var b := State();
      if old(Valid()) {
        InvIsChecked(hashes, b);
      }
      if |vRandom| != nTried + nNew {
        return -7;
      }
      var setTried, mapNew;
      r, setTried, mapNew, mapAddr := CheckEntries(mapInfo, mapAddr, vRandom);
      if r != 0 {
        return;
      }
      CountNew(mapInfo, mapNew);
      if |setTried| != nTried {
        return -9;
      }
      if |mapNew| != nNew {
        return -10;
      }
      var left, more;
      r, left := CheckTried(setTried, vvTried);
      if r != 0 {
        return;
      }
      r, more := CheckNew(mapNew, vvNew);
      if r != 0 {
        return;
      }
      if left != {} {
        return -13;
      }
      if |more| != 0 {
        return -15;
      }
    }

    /** Shuffles the first nNodes entries of vRandom, selecting from all, and lists their addresses. */
    method ShuffleFront(nNodes: nat) returns (vAddr: seq<Service>)
      requires RandomOk(mapInfo, vRandom) && nNodes <= |vRandom|
      modifies `mapInfo, `vRandom
      ensures |vAddr| == nNodes && Shuffled(old(mapInfo), mapInfo, vRandom, vAddr)
    {
      vAddr := [];
      var n := 0;
      while n < nNodes
        invariant 0 <= n <= nNodes <= |vRandom| && |vAddr| == n
        invariant Shuffled(old(mapInfo), mapInfo, vRandom, vAddr)
      {
        var nRndPos: nat :| n <= nRndPos < |vRandom|;
        ShuffleStep(old(mapInfo), mapInfo, vRandom, nRndPos, vAddr);
        SwapRandom(n, nRndPos);
        vAddr := vAddr + [mapInfo[vRandom[n]].rec.addr];
        n := n + 1;
      }
    }

    method PickFront(nNodes: nat) returns (vAddr: seq<Service>)
      requires Valid() && nNodes <= |vRandom|
      modifies `mapInfo, `vRandom
      ensures Valid() && OnlyShuffled(old(mapInfo), mapInfo)
      ensures |vAddr| == nNodes && Picked(old(State()), vAddr)
    {
      ghost var b := State();
      vAddr := ShuffleFront(nNodes);
      ShuffledKeepsInv(hashes, b, mapInfo, vRandom, vAddr);
      assert State() == b.(info := mapInfo, random := vRandom);
    }

    static method NodesToSend(size: nat) returns (nNodes: nat)
      ensures nNodes == if 23 * size / 100 > 2500 then 2500 else 23 * size / 100
      ensures nNodes <= size
    {
      nNodes := GETADDR_MAX_PCT * size / 100;
      if nNodes > GETADDR_MAX {
        nNodes := GETADDR_MAX;
      }
    }

    /** Returns some of the addresses known, picked at random. */
    method GetAddr_() returns (vAddr: seq<Service>)
      requires Valid()
      modifies `mapInfo, `vRandom
      ensures Valid() && OnlyShuffled(old(mapInfo), mapInfo)
      ensures |vAddr| == if 23 * |old(vRandom)| / 100 > 2500 then 2500 else 23 * |old(vRandom)| / 100
      ensures Picked(old(State()), vAddr)
    {
      var nNodes := NodesToSend(|vRandom|);
      vAddr := PickFront(nNodes);
    }
  }

  /** An announced address. */
  datatype Address = Address(service: Service, time: nat, services: bv64)

  /** The record of a known address after hearing of it again. A time is taken over, less the penalty, if there was none,
      or if it is later by more than the penalty and an hour; by a day, if it is itself a day old. Services add up. */
  function Refreshed(rec: Record, a: Address, penalty: int, now: int): (r: Record)
    ensures r == rec.(time := r.time, services := rec.services | a.services)
    ensures a.time == 0 ==> r.time == rec.time
    ensures a.time != 0 && rec.time == 0 ==> r.time == NotNegative(a.time - penalty)
    ensures a.time != 0 && rec.time != 0 && a.time > now - 86400 ==>
              r.time == if a.time > rec.time + penalty + 3600 then NotNegative(a.time - penalty) else rec.time
    ensures a.time != 0 && rec.time != 0 && a.time <= now - 86400 ==>
              r.time == if a.time > rec.time + penalty + 86400 then NotNegative(a.time - penalty) else rec.time
  {
    var online := now - a.time < 24 * 60 * 60;
    var interval := if online then 60 * 60 else 24 * 60 * 60;
    var time := if a.time != 0 && (rec.time == 0 || rec.time < a.time - interval - penalty)
                then NotNegative(a.time - penalty) else rec.time;
    rec.(time := time, services := rec.services | a.services)
  }

  function NotNegative(t: int): (r: int)
    ensures r == if t < 0 then 0 else t
  {
    if 0 < t then t else 0
  }

  /** The entry of an unknown address, counted for its first bucket. */
  function Fresh(a: Address, source: NetAddr, penalty: int, pos: nat): (i: Info)
    ensures i.rec.addr == a.service && i.rec.services == a.services && i.rec.source == source
    ensures i.rec.time == (if a.time < penalty then 0 else a.time - penalty) && i.rec.lastTry == i.rec.lastSuccess == i.rec.attempts == 0
    ensures i.refCount == 1 && !i.inTried && i.randomPos == pos
  {
    Info(Record(a.service, a.services, NotNegative(a.time - penalty), 0, source, 0, 0), 1, false, pos)
  }

  function Created(b: Book, i: Info): Book {
    b.(idCount := b.idCount + 1, info := b.info[b.idCount := i], addr := b.addr[i.rec.addr.ip := b.idCount],
       random := b.random + [b.idCount], nNew := b.nNew + 1)
  }

  /** An entry may only go into one more bucket on news of it, when untried and in fewer than four. */
  predicate MayGain(i: Info, a: Address): (may: bool)
    ensures may <==> !i.inTried && i.refCount < 4 && a.time > 0 && (i.rec.time == 0 || i.rec.time < a.time)
  {
    a.time != 0 && (i.rec.time == 0 || a.time > i.rec.time) && !i.inTried && i.refCount < NEW_BUCKETS_PER_ADDRESS
  }

  /** id has been put into the bucket its address and the source select, unless it was there. */
  ghost predicate Gained(h: Hashes, b: Book, after: Book, id: nat, source: NetAddr, now: int)
    requires id in b.info && |b.news| == NEW_BUCKET_COUNT
  {
    var u := h.NewBucket(b.info[id].rec.addr.ip, source);
    if id in b.news[u] then after == b else Placed(CountRef(b, id), after, id, u, now)
  }

  /** Two to the power n; one for n below zero. */
  function TwoTo(n: int): (r: nat)
    ensures r >= 1
  {
    if n <= 0 then 1 else 2 * TwoTo(n - 1)
  }

  lemma Chances()
    ensures TwoTo(0) == 1 && TwoTo(1) == 2 && TwoTo(2) == 4 && TwoTo(3) == 8
  {
    assert TwoTo(3) == 2 * TwoTo(2);
  }

  /** A known address was heard of again: its record is refreshed, and if it may go into one more bucket it does so by
      one draw in two, four or eight, when it is in one, two or three. */
  ghost predicate HeardAgain(
    h: Hashes, b: Book, after: Book, id: nat, a: Address, source: NetAddr, penalty: int, now: int, draw: nat)
    requires Inv(h, b) && id in b.info
  {
    var c := WithRecord(b, id, Refreshed(b.info[id].rec, a, penalty, now));
    && draw < TwoTo(b.info[id].refCount)
    && if MayGain(c.info[id], a) && draw == 0 then Gained(h, c, after, id, source, now) else after == c
  }

  /** The tables after a routable address was added. */
  ghost predicate Added(
    h: Hashes, b: Book, after: Book, a: Address, source: NetAddr, penalty: int, now: int, draw: nat)
    requires Inv(h, b)
  {
    if a.service.ip in b.addr then
      HeardAgain(h, b, after, b.addr[a.service.ip], a, source, penalty, now, draw)
    else
      Placed(Created(b, Fresh(a, source, penalty, |b.random|)), after, b.idCount, h.NewBucket(a.service.ip, source), now)
  }

  lemma GainedKeepsInv(h: Hashes, b: Book, after: Book, id: nat, source: NetAddr, now: int)
    requires Inv(h, b) && id in b.info && !b.info[id].inTried && b.info[id].refCount < NEW_BUCKETS_PER_ADDRESS
    requires Gained(h, b, after, id, source, now)
    ensures Inv(h, after)
  {
    var u := h.NewBucket(b.info[id].rec.addr.ip, source);
    if id !in b.news[u] {
      CountRefKeepsInv(h, b, id);
      PlacedKeepsInv(h, CountRef(b, id), after, id, u, now);
    }
  }

  lemma CreatedKeepsInv(h: Hashes, b: Book, i: Info, u: nat)
    requires Inv(h, b) && i.rec.addr.ip !in b.addr && i.refCount == 1 && !i.inTried && i.randomPos == |b.random| && TimeOk(i)
    requires u < |b.news|
    ensures InvBut(h, Created(b, i), {b.idCount}) && b.idCount in Created(b, i).info && b.idCount !in b.news[u]
  {
    CreateKeepsInv(h, b, i);
    assert b.idCount !in b.info;
  }

  /** The entries still there keep their record and their standing. */
  ghost predicate Retained(info: map<nat, Info>, after: map<nat, Info>) {
    forall j :: j in info && j in after ==> after[j].rec == info[j].rec && after[j].inTried == info[j].inTried
  }

  predicate Gone(info: map<nat, Info>, after: map<nat, Info>, v: nat) {
    v in info && v !in after
  }

  /** At most one entry is gone: an untried one, that was in bucket u and nowhere else, when the bucket was full. */
  ghost predicate OneGone(info: map<nat, Info>, news: seq<set<nat>>, after: map<nat, Info>, u: nat)
    requires u < |news|
  {
    && (forall v, w :: Gone(info, after, v) && Gone(info, after, w) ==> v == w)
    && (forall v :: Gone(info, after, v) ==>
          !info[v].inTried && info[v].refCount == 1 && v in news[u] && |news[u]| == NEW_BUCKET_SIZE)
  }

  lemma DropRetains(b: Book, u: nat, v: nat)
    requires RandomOk(b.info, b.random) && v in b.info && u < |b.news|
    ensures Retained(b.info, Drop(b, u, v).info)
    ensures forall w :: Gone(b.info, Drop(b, u, v).info, w) ==> w == v && b.info[v].refCount == 1
  {
    ForgetFacts(b.info, b.random, v);
  }

  predicate AllUntried(info: map<nat, Info>, bucket: set<nat>) {
    forall v :: v in bucket ==> v in info && !info[v].inTried
  }

  lemma NewBucketsUntried(info: map<nat, Info>, news: seq<set<nat>>, u: nat)
    requires NewOk(info, news, {}) && u < |news|
    ensures AllUntried(info, news[u])
  {
    forall v | v in news[u] ensures v in info && !info[v].inTried {
      DropRefs(info, news, u, v, {});
    }
  }

  /** If the tables differ only in the entry id that stays, the same entries are gone from both. */
  lemma SameGone(info: map<nat, Info>, other: map<nat, Info>, news: seq<set<nat>>, after: map<nat, Info>, u: nat, id: nat)
    requires u < |news| && OneGone(other, news, after, u) && Retained(other, after) && id in after && id in other
    requires forall j :: j in info && j != id ==> j in other && other[j] == info[j]
    ensures OneGone(info, news, after, u) && Retained(info - {id}, after)
  {
    assert forall v :: Gone(info, after, v) ==> Gone(other, after, v);
  }

  /** Placing an entry forgets at most one other. */
  lemma PlacedForgets(b: Book, after: Book, id: nat, u: nat, now: int)
    requires u < |b.news| && AllUntried(b.info, b.news[u]) && id in b.info && id !in b.news[u] && Placed(b, after, id, u, now)
    ensures after.tried == b.tried && after.nTried == b.nTried
    ensures Retained(b.info, after.info) && OneGone(b.info, b.news, after.info, u)
    ensures id in after.info
  {
    var c :| RoomMade(b, c, u, now) && u < |c.news| && after == Insert(c, u, id);
    if |b.news[u]| == NEW_BUCKET_SIZE {
      var v :| Evicted(b.info, b.news[u], now, v) && c == Drop(b, u, v);
      DropRetains(b, u, v);
    }
  }

  /** Putting a known address into one more bucket. */
  lemma GainedForgets(h: Hashes, b: Book, after: Book, id: nat, source: NetAddr, now: int)
    requires |b.news| == NEW_BUCKET_COUNT && id in b.info && Gained(h, b, after, id, source, now)
    requires AllUntried(b.info, b.news[h.NewBucket(b.info[id].rec.addr.ip, source)])
    ensures after.tried == b.tried && after.nTried == b.nTried && id in after.info
    ensures Retained(b.info, after.info) && OneGone(b.info, b.news, after.info, h.NewBucket(b.info[id].rec.addr.ip, source))
  {
    var u := h.NewBucket(b.info[id].rec.addr.ip, source);
    if id !in b.news[u] {
      var c := CountRef(b, id);
      PlacedForgets(c, after, id, u, now);
      SameGone(b.info, c.info, b.news, after.info, u, id);
    }
  }

  /** Adding an address changes no tried bucket, makes the book know the address, and of the other entries drops one
      at most, never a tried one; those that stay keep their record and standing. */
  lemma AddedForgetsOneAtMost(h: Hashes, b: Book, after: Book, a: Address, source: NetAddr, penalty: int, now: int, draw: nat)
    requires Inv(h, b) && Added(h, b, after, a, source, penalty, now, draw)
    ensures after.tried == b.tried && after.nTried == b.nTried
    ensures OneGone(b.info, b.news, after.info, h.NewBucket(a.service.ip, source))
    ensures var id := if a.service.ip in b.addr then b.addr[a.service.ip] else b.idCount;
            && id in after.info && after.info[id].rec.addr.ip == a.service.ip
            && Retained(b.info - {id}, after.info) && (id in b.info ==> after.info[id].inTried == b.info[id].inTried)
  {
    if a.service.ip in b.addr {
      NewBucketsUntried(b.info, b.news, h.NewBucket(a.service.ip, source));
      var id := b.addr[a.service.ip];
      AddedKnown(h, b, after, id, Refreshed(b.info[id].rec, a, penalty, now), source, now);
    } else {
      NewBucketsUntried(b.info, b.news, h.NewBucket(a.service.ip, source));
      AddedUnknown(h, b, after, Fresh(a, source, penalty, |b.random|), h.NewBucket(a.service.ip, source), now);
    }
  }

  lemma AddedKnown(h: Hashes, b: Book, after: Book, id: nat, rec: Record, source: NetAddr, now: int)
    requires id in b.info && rec.addr == b.info[id].rec.addr && |b.news| == NEW_BUCKET_COUNT
    requires AllUntried(b.info, b.news[h.NewBucket(rec.addr.ip, source)])
    requires after == WithRecord(b, id, rec) || Gained(h, WithRecord(b, id, rec), after, id, source, now)
    ensures after.tried == b.tried && after.nTried == b.nTried
    ensures OneGone(b.info, b.news, after.info, h.NewBucket(rec.addr.ip, source))
    ensures id in after.info && after.info[id].rec.addr == rec.addr && Retained(b.info - {id}, after.info)
    ensures after.info[id].inTried == b.info[id].inTried
  {
    var c := WithRecord(b, id, rec);
    if after != c {
      GainedForgets(h, c, after, id, source, now);
      SameGone(b.info, c.info, b.news, after.info, h.NewBucket(rec.addr.ip, source), id);
    }
  }

  lemma AddedUnknown(h: Hashes, b: Book, after: Book, i: Info, u: nat, now: int)
    requires u < |b.news| && AllUntried(b.info, b.news[u]) && b.idCount !in b.info && i.refCount == 1 && !i.inTried
    requires Placed(Created(b, i), after, b.idCount, u, now)
    ensures after.tried == b.tried && after.nTried == b.nTried && OneGone(b.info, b.news, after.info, u)
    ensures b.idCount in after.info && after.info[b.idCount].rec == i.rec && Retained(b.info - {b.idCount}, after.info)
  {
    var c := Created(b, i);
    PlacedForgets(c, after, b.idCount, u, now);
    SameGone(b.info, c.info, b.news, after.info, u, b.idCount);
  }

  /** All entries but these are as before, if perhaps at another place in vRandom. */
  ghost predicate Untouched(info: map<nat, Info>, after: map<nat, Info>, but: set<nat>) {
    forall j :: j in info && j !in but ==> j in after && after[j] == info[j].(randomPos := after[j].randomPos)
  }

  /** v has lost a reference, and is gone if that was the last. */
  ghost predicate LostOne(info: map<nat, Info>, after: map<nat, Info>, v: nat)
    requires v in info
  {
    if info[v].refCount == 1 then v !in after
    else v in after && after[v] == info[v].(refCount := info[v].refCount - 1, randomPos := after[v].randomPos)
  }

  /** id has gone into bucket u and no other; if there were 64 entries in it, one that may be evicted has left it. */
  ghost predicate WentInto(info: map<nat, Info>, news: seq<set<nat>>, after: Book, id: nat, u: nat, now: int)
    requires u < |news|
  {
    if |news[u]| != 64 then after.news == news[u := news[u] + {id}] && Untouched(info, after.info, {id})
    else exists v :: Displaced(info, news, after, id, u, now, v)
  }

  ghost predicate Displaced(info: map<nat, Info>, news: seq<set<nat>>, after: Book, id: nat, u: nat, now: int, v: nat)
    requires u < |news|
  {
    && Evicted(info, news[u], now, v) && after.news == news[u := news[u] - {v} + {id}]
    && Untouched(info, after.info, {id, v}) && LostOne(info, after.info, v)
  }

  lemma DroppedMeans(b: Book, u: nat, v: nat)
    requires RandomOk(b.info, b.random) && v in b.info && u < |b.news|
    ensures Untouched(b.info, Drop(b, u, v).info, {v}) && LostOne(b.info, Drop(b, u, v).info, v)
  {
    ForgetFacts(b.info, b.random, v);
  }

  lemma PlacedMeans(b: Book, after: Book, id: nat, u: nat, now: int)
    requires u < |b.news| && id !in b.news[u] && Placed(b, after, id, u, now)
    ensures WentInto(b.info, b.news, after, id, u, now)
  {
    var c :| RoomMade(b, c, u, now) && u < |c.news| && after == Insert(c, u, id);
    if |b.news[u]| == NEW_BUCKET_SIZE {
      var v :| Evicted(b.info, b.news[u], now, v) && c == Drop(b, u, v);
      DroppedMeans(b, u, v);
      DroppedAndInserted(b, after, id, u, v);
      assert Displaced(b.info, b.news, after, id, u, now, v);
    }
  }

  lemma DroppedAndInserted(b: Book, after: Book, id: nat, u: nat, v: nat)
    requires RandomOk(b.info, b.random) && v in b.info && u < |b.news| && after == Insert(Drop(b, u, v), u, id)
    ensures after.news == b.news[u := b.news[u] - {v} + {id}] && after.info == Drop(b, u, v).info
  {
  }

  lemma SameEvicted(info: map<nat, Info>, other: map<nat, Info>, bucket: set<nat>, now: int, v: nat)
    requires Evicted(other, bucket, now, v) && bucket <= info.Keys && forall j :: j in bucket ==> other[j] == info[j]
    ensures Evicted(info, bucket, now, v)
  {
    if j :| j in bucket && Deletable(info[j].rec, now) {
      assert Deletable(other[j].rec, now);
    }
  }

  /** An entry going into a bucket, seen from tables that differ in that entry only, or do not have it. */
  lemma SameWay(info: map<nat, Info>, other: map<nat, Info>, news: seq<set<nat>>, after: Book, id: nat, u: nat, now: int)
    requires u < |news| && id !in news[u] && news[u] <= info.Keys && WentInto(other, news, after, id, u, now)
    requires forall j :: j in info && j != id ==> j in other && other[j] == info[j]
    ensures WentInto(info, news, after, id, u, now)
  {
    if |news[u]| == 64 {
      var v :| Displaced(other, news, after, id, u, now, v);
      SameEvicted(info, other, news[u], now, v);
      assert Displaced(info, news, after, id, u, now, v);
    }
  }

  /** Where an added address goes: one never heard of into the bucket that it and the source select; a known one only by
      the draw, when untried, in less than four buckets, and with later news than before, and not in that bucket. */
  lemma AddedGoesInto(
    h: Hashes, b: Book, after: Book, a: Address, source: NetAddr, penalty: int, now: int, draw: nat)
    requires Inv(h, b) && Added(h, b, after, a, source, penalty, now, draw)
    ensures var u := h.NewBucket(a.service.ip, source);
            if a.service.ip !in b.addr then WentInto(b.info, b.news, after, b.idCount, u, now)
            else
              var id := b.addr[a.service.ip];
              var rec := Refreshed(b.info[id].rec, a, penalty, now);
              if draw == 0 && MayGain(b.info[id].(rec := rec), a) && id !in b.news[u] then WentInto(b.info, b.news, after, id, u, now)
              else after.news == b.news && Untouched(b.info, after.info, {id})
  {
    if a.service.ip !in b.addr {
      UnknownGoesInto(h, b, after, Fresh(a, source, penalty, |b.random|), h.NewBucket(a.service.ip, source), now);
    } else {
      var id := b.addr[a.service.ip];
      NewBucketKnown(b, h.NewBucket(a.service.ip, source));
      KnownGoesInto(h, b, after, id, Refreshed(b.info[id].rec, a, penalty, now), source, now);
    }
  }

  lemma CreatedIs(h: Hashes, b: Book, i: Info, u: nat)
    requires Inv(h, b) && u < |b.news|
    ensures b.idCount !in b.info && b.news[u] <= b.info.Keys
    ensures var c := Created(b, i);
            && c.news == b.news && c.info.Keys == b.info.Keys + {b.idCount}
            && forall j :: j in b.info ==> c.info[j] == b.info[j]
  {
  }

  lemma UnknownGoesInto(h: Hashes, b: Book, after: Book, i: Info, u: nat, now: int)
    requires Inv(h, b) && u < |b.news| && Placed(Created(b, i), after, b.idCount, u, now)
    ensures WentInto(b.info, b.news, after, b.idCount, u, now)
  {
    CreatedIs(h, b, i, u);
    NewGoesInto(b, Created(b, i), after, b.idCount, u, now);
  }

  /** c is b with one entry more, which is then placed. */
  lemma NewGoesInto(b: Book, c: Book, after: Book, id: nat, u: nat, now: int)
    requires id !in b.info && u < |b.news| && b.news[u] <= b.info.Keys && c.news == b.news && Placed(c, after, id, u, now)
    requires c.info.Keys == b.info.Keys + {id} && forall j :: j in b.info ==> c.info[j] == b.info[j]
    ensures WentInto(b.info, b.news, after, id, u, now)
  {
    PlacedMeans(c, after, id, u, now);
    SameWay(b.info, c.info, b.news, after, id, u, now);
  }

  lemma NewBucketKnown(b: Book, u: nat)
    requires NewOk(b.info, b.news, {}) && u < |b.news|
    ensures b.news[u] <= b.info.Keys
  {
  }

  lemma KnownGoesInto(h: Hashes, b: Book, after: Book, id: nat, rec: Record, source: NetAddr, now: int)
    requires id in b.info && rec.addr == b.info[id].rec.addr && |b.news| == NEW_BUCKET_COUNT
    requires b.news[h.NewBucket(rec.addr.ip, source)] <= b.info.Keys
    ensures var u, c := h.NewBucket(rec.addr.ip, source), WithRecord(b, id, rec);
            && (after == c ==> after.news == b.news && Untouched(b.info, after.info, {id}))
            && (Gained(h, c, after, id, source, now) ==>
                  if id in b.news[u] then after == c else WentInto(b.info, b.news, after, id, u, now))
  {
    var u, c := h.NewBucket(rec.addr.ip, source), WithRecord(b, id, rec);
    if Gained(h, c, after, id, source, now) && id !in b.news[u] {
      CountedGoesInto(b, c, after, id, u, now);
    }
  }

  /** c is b but for the entry id, which is then counted once more and placed. */
  lemma CountedGoesInto(b: Book, c: Book, after: Book, id: nat, u: nat, now: int)
    requires id in b.info && u < |b.news| && id !in b.news[u] && b.news[u] <= b.info.Keys && c.news == b.news
    requires id in c.info && forall j :: j in b.info && j != id ==> j in c.info && c.info[j] == b.info[j]
    requires Placed(CountRef(c, id), after, id, u, now)
    ensures WentInto(b.info, b.news, after, id, u, now)
  {
    PlacedMeans(CountRef(c, id), after, id, u, now);
    SameWay(b.info, CountRef(c, id).info, b.news, after, id, u, now);
  }

  /** Marking an address good forgets nobody: the entry leaves the new buckets and becomes tried; if its tried bucket is
      full, another entry loses its place there, and no other does. */
  lemma MovedForgetsNobody(h: Hashes, b: Book, after: Book, id: nat, origin: nat)
    requires TriedOk(h, b.info, b.tried) && |b.news| == NEW_BUCKET_COUNT && id in b.info && !b.info[id].inTried
    requires origin < |b.news| && MovedToTried(h, b, after, id, origin)
    ensures after.info.Keys == b.info.Keys && after.addr == b.addr && after.random == b.random
    ensures after.info[id].inTried && forall j :: j in b.info ==> after.info[j].rec == b.info[j].rec
    ensures var k := h.TriedBucket(b.info[id].rec.addr);
            if |b.tried[k]| < 64 then
              && after.tried == b.tried[k := b.tried[k] + [id]] && NewBuckets(b, after, id, {}, 0)
              && forall j :: j in b.info && j != id ==> after.info[j] == b.info[j]
            else exists draws, pos :: MadeWay(h, b, after, id, origin, k, draws, pos)
  {
    var k := h.TriedBucket(b.info[id].rec.addr);
    if |b.tried[k]| >= TRIED_BUCKET_SIZE {
      var c := Unplaced(b, id);
      var draws :| CanExchange(c, id, origin, k, draws) && after == Exchanged(h, c, id, origin, k, draws);
      ExchangeMakesWay(h, b, after, id, origin, k, draws);
      assert MadeWay(h, b, after, id, origin, k, draws, Chosen(b.tried[k], b.info, draws).1);
    }
  }

  /** id has left the new buckets, and e, if anything, has entered bucket u. */
  ghost predicate NewBuckets(b: Book, after: Book, id: nat, e: set<nat>, u: nat) {
    && |after.news| == |b.news|
    && forall x :: 0 <= x < |b.news| ==> after.news[x] == (b.news[x] - {id}) + if x == u then e else {}
  }

  /** e alone lost its tried place, and is in one new bucket now: in the one it belongs to if there is room, or else in
      the one that id was found in. */
  ghost predicate SentBack(h: Hashes, b: Book, after: Book, id: nat, e: nat, origin: nat)
    requires |b.news| == NEW_BUCKET_COUNT
  {
    && e in b.info && b.info[e].inTried && e in after.info && !after.info[e].inTried && after.info[e].refCount == 1
    && (forall j :: j in b.info && j != id && j != e ==> j in after.info && after.info[j] == b.info[j])
    && var u := h.NewBucket(b.info[e].rec.addr.ip, b.info[e].rec.source);
       NewBuckets(b, after, id, {e}, if |b.news[u] - {id}| < 64 then u else origin)
  }

  /** After the draws the entry at pos, from where the least recent of those inspected was drawn, made way for id. */
  ghost predicate MadeWay(h: Hashes, b: Book, after: Book, id: nat, origin: nat, k: nat, draws: seq<nat>, pos: nat)
    requires k < |b.tried| && |b.news| == NEW_BUCKET_COUNT
  {
    && Draws(draws, |b.tried[k]|) && pos < |b.tried[k]|
    && var shuffled := ShuffledBy(b.tried[k], draws, |draws|);
       && IsLeastRecent(b.info, shuffled, draws, pos)
       && after.tried == b.tried[k := shuffled[pos := id]] && SentBack(h, b, after, id, shuffled[pos], origin)
  }

  lemma ExchangeMakesWay(h: Hashes, b: Book, after: Book, id: nat, origin: nat, k: nat, draws: seq<nat>)
    requires TriedOk(h, b.info, b.tried) && k < |b.tried| && |b.news| == NEW_BUCKET_COUNT && id in b.info && !b.info[id].inTried
    requires origin < |b.news| && CanExchange(Unplaced(b, id), id, origin, k, draws)
    requires after == Exchanged(h, Unplaced(b, id), id, origin, k, draws)
    ensures MadeWay(h, b, after, id, origin, k, draws, Chosen(b.tried[k], b.info, draws).1)
    ensures after.info.Keys == b.info.Keys && after.addr == b.addr && after.random == b.random
    ensures after.info[id].inTried && forall j :: j in b.info ==> after.info[j].rec == b.info[j].rec
  {
    UnplacedChosen(b, id, k, draws);
    var (bucket, pos) := Chosen(b.tried[k], b.info, draws);
    forall e | e in b.tried[k] ensures e in b.info && b.info[e].inTried {}
    ChosenMembers(b.tried[k], b.info, draws);
    ChosenIsLeastRecent(b.info, b.tried[k], draws);
    InspectShuffles(b.tried[k], Ages(b.info), draws, |draws|);
    ExchangeSendsBack(h, b, after, id, origin, k, bucket, pos);
  }

  lemma ExchangedInfo(h: Hashes, b: Book, after: Book, id: nat, origin: nat, k: nat, bucket: seq<nat>, pos: nat)
    requires id in b.info && !b.info[id].inTried && origin < |b.news| == NEW_BUCKET_COUNT && k < |b.tried|
    requires pos < |bucket| && bucket[pos] in b.info && b.info[bucket[pos]].inTried
    requires after == Exchange(h, Unplaced(b, id), id, origin, k, bucket, pos)
    ensures after.info.Keys == b.info.Keys && after.addr == b.addr && after.random == b.random
    ensures after.info[id].inTried && after.tried == b.tried[k := bucket[pos := id]]
    ensures !after.info[bucket[pos]].inTried && after.info[bucket[pos]].refCount == 1
    ensures forall j :: j in b.info ==> after.info[j].rec == b.info[j].rec
    ensures forall j :: j in b.info && j != id && j != bucket[pos] ==> after.info[j] == b.info[j]
  {
  }

  lemma ExchangedNews(h: Hashes, b: Book, after: Book, id: nat, origin: nat, k: nat, bucket: seq<nat>, pos: nat, u: nat)
    requires id in b.info && origin < |b.news| == NEW_BUCKET_COUNT && k < |b.tried|
    requires pos < |bucket| && bucket[pos] in b.info && bucket[pos] != id
    requires after == Exchange(h, Unplaced(b, id), id, origin, k, bucket, pos)
    requires u == h.NewBucket(b.info[bucket[pos]].rec.addr.ip, b.info[bucket[pos]].rec.source)
    ensures NewBuckets(b, after, id, {bucket[pos]}, if |b.news[u] - {id}| < 64 then u else origin)
  {
    var into := if |b.news[u] - {id}| < 64 then u else origin;
    assert after.news == Purged(b.news, id)[into := Purged(b.news, id)[into] + {bucket[pos]}];
  }

  lemma ExchangeSendsBack(h: Hashes, b: Book, after: Book, id: nat, origin: nat, k: nat, bucket: seq<nat>, pos: nat)
    requires id in b.info && !b.info[id].inTried && origin < |b.news| == NEW_BUCKET_COUNT && k < |b.tried|
    requires pos < |bucket| && bucket[pos] in b.info && b.info[bucket[pos]].inTried
    requires after == Exchange(h, Unplaced(b, id), id, origin, k, bucket, pos)
    ensures SentBack(h, b, after, id, bucket[pos], origin) && after.tried == b.tried[k := bucket[pos := id]]
    ensures after.info.Keys == b.info.Keys && after.addr == b.addr && after.random == b.random
    ensures after.info[id].inTried && forall j :: j in b.info ==> after.info[j].rec == b.info[j].rec
  {
    var e := b.info[bucket[pos]].rec;
    ExchangedInfo(h, b, after, id, origin, k, bucket, pos);
    ExchangedNews(h, b, after, id, origin, k, bucket, pos, h.NewBucket(e.addr.ip, e.source));
  }

  /** The same entries, in other places of vRandom. */
  ghost predicate OnlyShuffled(info: map<nat, Info>, other: map<nat, Info>) {
    && info.Keys == other.Keys
    && forall id :: id in info ==> other[id] == info[id].(randomPos := other[id].randomPos)
  }

  /** The entries of info have been shuffled, and vAddr lists the addresses at the front of vRandom. */
  ghost predicate Shuffled(info: map<nat, Info>, other: map<nat, Info>, random: seq<nat>, vAddr: seq<Service>) {
    RandomOk(other, random) && OnlyShuffled(info, other) && Lists(other, random, vAddr)
  }

  ghost predicate Lists(info: map<nat, Info>, random: seq<nat>, vAddr: seq<Service>) {
    |vAddr| <= |random| && forall i :: 0 <= i < |vAddr| ==> random[i] in info && vAddr[i] == info[random[i]].rec.addr
  }

  lemma ListsOneMore(info: map<nat, Info>, random: seq<nat>, vAddr: seq<Service>, pos: nat)
    requires RandomOk(info, random) && Lists(info, random, vAddr) && |vAddr| <= pos < |random|
    ensures var other, r := SwapInfo(info, random, |vAddr|, pos), AddrBook.SwapRandom(random, |vAddr|, pos);
            r[|vAddr|] in other && Lists(other, r, vAddr + [other[r[|vAddr|]].rec.addr])
  {
    SwapFacts(info, random, |vAddr|, pos);
  }

  lemma ShuffleStep(info: map<nat, Info>, other: map<nat, Info>, random: seq<nat>, pos: nat, vAddr: seq<Service>)
    requires Shuffled(info, other, random, vAddr) && |vAddr| <= pos < |random|
    ensures random[|vAddr|] in other && random[pos] in other
    ensures var next, r := SwapInfo(other, random, |vAddr|, pos), AddrBook.SwapRandom(random, |vAddr|, pos);
            r[|vAddr|] in next && Shuffled(info, next, r, vAddr + [next[r[|vAddr|]].rec.addr])
  {
    ListsOneMore(other, random, vAddr, pos);
    SwapKeepsRandom(other, random, |vAddr|, pos);
  }

  lemma ShuffledKeepsInv(h: Hashes, b: Book, other: map<nat, Info>, random: seq<nat>, vAddr: seq<Service>)
    requires Inv(h, b) && Shuffled(b.info, other, random, vAddr)
    ensures Inv(h, b.(info := other, random := random)) && Picked(b, vAddr)
  {
    AddrFrame(b.info, other, b.addr);
    NewFrame(b.info, other, b.news, {});
    TriedFrame(h, b.info, other, b.tried);
    CountsFrame(b, other);
    TimesFrame(b.info, other);
    DistinctFront(other, random, b.addr, vAddr);
  }

  /** Addresses of the book, all different. */
  ghost predicate Picked(b: Book, vAddr: seq<Service>) {
    && (forall i :: 0 <= i < |vAddr| ==>
          vAddr[i].ip in b.addr && b.addr[vAddr[i].ip] in b.info && b.info[b.addr[vAddr[i].ip]].rec.addr == vAddr[i])
    && forall i, j :: 0 <= i < j < |vAddr| ==> vAddr[i].ip != vAddr[j].ip
  }

  lemma DistinctFront(info: map<nat, Info>, random: seq<nat>, addr: map<NetAddr, nat>, vAddr: seq<Service>)
    requires RandomOk(info, random) && AddrOk(info, addr) && Lists(info, random, vAddr)
    ensures forall i :: 0 <= i < |vAddr| ==> vAddr[i].ip in addr && info[addr[vAddr[i].ip]].rec.addr == vAddr[i]
    ensures forall i, j :: 0 <= i < j < |vAddr| ==> vAddr[i].ip != vAddr[j].ip
  {
    forall i, j | 0 <= i < j < |vAddr| ensures vAddr[i].ip != vAddr[j].ip {
      assert addr[vAddr[i].ip] == random[i] && addr[vAddr[j].ip] == random[j];
      assert info[random[i]].randomPos == i && info[random[j]].randomPos == j;
    }
  }

  lemma RecordKeepsInv(h: Hashes, b: Book, id: nat, rec: Record)
    requires Inv(h, b) && id in b.info && rec.addr == b.info[id].rec.addr && rec.lastTry >= 0
    requires rec.lastSuccess == b.info[id].rec.lastSuccess || rec.lastSuccess > 0
    ensures Inv(h, WithRecord(b, id, rec))
  {
    assert TimeOk(b.info[id]);
    UpdateKeepsInv(h, b, {}, id, b.info[id].(rec := rec));
  }

  /** Overwriting a record keeps the invariant exactly if the times make sense. */
  lemma RecordInvIff(h: Hashes, b: Book, id: nat, rec: Record)
    requires Inv(h, b) && id in b.info && rec.addr == b.info[id].rec.addr
    ensures Inv(h, WithRecord(b, id, rec)) <==> TimeOk(b.info[id].(rec := rec))
  {
    var c := WithRecord(b, id, rec);
    if TimeOk(b.info[id].(rec := rec)) {
      UpdateKeepsInv(h, b, {}, id, b.info[id].(rec := rec));
    } else {
      assert id in c.info && !TimeOk(c.info[id]);
    }
  }

  /** What moving an entry to the tried table needs of the tables. */
  ghost predicate Movable(b: Book, id: nat) {
    && id in b.info && !b.info[id].inTried && |b.news| == NEW_BUCKET_COUNT && |b.tried| == TRIED_BUCKET_COUNT
    && b.info[id].refCount == Refs(b.news, |b.news|, id)
    && forall k, j :: 0 <= k < |b.tried| && j in b.tried[k] ==> j in b.info
  }

  lemma InvIsMovable(h: Hashes, b: Book, id: nat, rec: Record)
    requires Inv(h, b) && id in b.info && rec.addr == b.info[id].rec.addr
    ensures !b.info[id].inTried ==> Movable(WithRecord(b, id, rec), id)
    ensures TriedOk(h, WithRecord(b, id, rec).info, b.tried)
  {
    assert RefCountOk(b.info[id], Refs(b.news, |b.news|, id));
    TriedUpdate(h, b.info, b.tried, id, b.info[id].(rec := rec));
  }

  /** Moving an entry to the tried table keeps the invariant, once it has been seen to be good. */
  lemma MovedKeepsInv(h: Hashes, b: Book, after: Book, id: nat, origin: nat)
    requires Inv(h, b) && id in b.info && !b.info[id].inTried && b.info[id].rec.lastSuccess > 0
    requires origin < |b.news| && id in b.news[origin] && MovedToTried(h, b, after, id, origin)
    ensures Inv(h, after)
  {
    var k := h.TriedBucket(b.info[id].rec.addr);
    if |b.tried[k]| < TRIED_BUCKET_SIZE {
      PromoteIntoKeepsInv(h, b, id, k);
    } else {
      var draws :| CanExchange(Unplaced(b, id), id, origin, k, draws) && after == Exchanged(h, Unplaced(b, id), id, origin, k, draws);
      ExchangedKeepsInv(h, b, id, origin, draws);
    }
  }

  /** An entry that is in the tried table without having been seen to be good breaks the invariant. */
  lemma MovedKeepsRecord(h: Hashes, b: Book, after: Book, id: nat, origin: nat)
    requires TriedOk(h, b.info, b.tried) && |b.news| == NEW_BUCKET_COUNT && id in b.info && !b.info[id].inTried
    requires origin < |b.news| && MovedToTried(h, b, after, id, origin) && b.info[id].rec.lastSuccess <= 0
    ensures !Inv(h, after)
  {
    MovedForgetsNobody(h, b, after, id, origin);
    assert id in after.info && !TimeOk(after.info[id]);
  }

  /** Bucket u has room, if need be because one id was taken out. */
  ghost predicate RoomMade(b: Book, c: Book, u: nat, now: int)
    requires u < |b.news|
  {
    if |b.news[u]| != NEW_BUCKET_SIZE then c == b
    else exists v :: Evicted(b.info, b.news[u], now, v) && RandomOk(b.info, b.random) && c == Drop(b, u, v)
  }

  ghost predicate Placed(b: Book, after: Book, id: nat, u: nat, now: int)
    requires u < |b.news|
  {
    exists c :: RoomMade(b, c, u, now) && u < |c.news| && after == Insert(c, u, id)
  }

  lemma DropMakesRoom(b: Book, u: nat, id: nat)
    requires RandomOk(b.info, b.random) && id in b.info && u < |b.news| && id in b.news[u]
    ensures |Drop(b, u, id).news| == |b.news| && |Drop(b, u, id).news[u]| == |b.news[u]| - 1
  {
  }

  lemma RoomMadeKeepsInv(h: Hashes, b: Book, c: Book, id: nat, u: nat, now: int)
    requires InvBut(h, b, {id}) && id in b.info && u < |b.news| && id !in b.news[u] && RoomMade(b, c, u, now)
    ensures InvBut(h, c, {id}) && id in c.info && u < |c.news| && id !in c.news[u] && |c.news[u]| < NEW_BUCKET_SIZE
  {
    if |b.news[u]| == NEW_BUCKET_SIZE {
      var v :| Evicted(b.info, b.news[u], now, v) && c == Drop(b, u, v);
      DroppedForRoom(h, b, u, v, id);
    }
  }

  lemma DroppedForRoom(h: Hashes, b: Book, u: nat, v: nat, id: nat)
    requires InvBut(h, b, {id}) && id in b.info && u < |b.news| && id !in b.news[u] && v in b.news[u] && v in b.info
    ensures var c := Drop(b, u, v);
            InvBut(h, c, {id}) && id in c.info && u < |c.news| && id !in c.news[u] && |c.news[u]| < NEW_BUCKET_SIZE
  {
    DropMakesRoom(b, u, v);
    DropLeaves(b, u, v, id);
    DropKeepsInv(h, b, u, v, {id});
  }

  /** Placing the entry that has been counted once more settles the count. */
  lemma PlacedKeepsInv(h: Hashes, b: Book, after: Book, id: nat, u: nat, now: int)
    requires InvBut(h, b, {id}) && id in b.info && u < |b.news| && id !in b.news[u] && Placed(b, after, id, u, now)
    ensures Inv(h, after)
  {
    var c :| RoomMade(b, c, u, now) && u < |c.news| && after == Insert(c, u, id);
    RoomMadeKeepsInv(h, b, c, id, u, now);
    InsertKeepsInv(h, c, u, id);
  }

  lemma DropLeaves(b: Book, u: nat, v: nat, id: nat)
    requires RandomOk(b.info, b.random) && v in b.info && u < |b.news| && v in b.news[u] && id !in b.news[u] && id in b.info
    ensures id in Drop(b, u, v).info && id !in Drop(b, u, v).news[u]
  {
    ForgetFacts(b.info, b.random, v);
  }

  function WithRecord(b: Book, id: nat, rec: Record): Book
    requires id in b.info
  {
    b.(info := b.info[id := b.info[id].(rec := rec)])
  }

  /** The record after a successful connection: only who and where it is, and who told us of it, stay. */
  function Seen(rec: Record, time: int): (r: Record)
    ensures r.addr == rec.addr && r.services == rec.services && r.source == rec.source
    ensures r.time == r.lastTry == r.lastSuccess == time && r.attempts == 0
  {
    rec.(lastSuccess := time, lastTry := time, time := time, attempts := 0)
  }

  /** The record after an attempt to connect. */
  function Attempted(rec: Record, time: int): (r: Record)
    ensures r.addr == rec.addr && r.services == rec.services && r.source == rec.source
    ensures r.time == rec.time && r.lastSuccess == rec.lastSuccess && r.lastTry == time && r.attempts == rec.attempts + 1
  {
    rec.(lastTry := time, attempts := rec.attempts + 1)
  }

  /** id taken out of all new buckets and not yet in a tried one. */
  function Unplaced(b: Book, id: nat): Book
    requires id in b.info
  {
    b.(info := b.info[id := b.info[id].(refCount := 0)], news := Purged(b.news, id), nNew := b.nNew - 1)
  }

  /** The entry at pos of tried bucket k, now shuffled into `bucket`, makes way for id and goes to its own new
      bucket, or failing that to origin. */
  function Exchange(h: Hashes, c: Book, id: nat, origin: nat, k: nat, bucket: seq<nat>, pos: nat): Book
    requires id in c.info && origin < |c.news| == NEW_BUCKET_COUNT && k < |c.tried|
    requires pos < |bucket| && bucket[pos] in c.info
  {
    var e := bucket[pos];
    var u := h.NewBucket(c.info[e].rec.addr.ip, c.info[e].rec.source);
    var into := if |c.news[u]| < NEW_BUCKET_SIZE then u else origin;
    var info := Demoted(c.info, e);
    c.(info := info[id := info[id].(inTried := true)], tried := c.tried[k := Replace(bucket, pos, id)],
       news := c.news[into := c.news[into] + {e}], nNew := c.nNew + 1)
  }

  lemma ExchangeAfterSelect(h: Hashes, b: Book, c: Book, id: nat, origin: nat, k: nat, draws: seq<nat>)
    requires CanExchange(b, id, origin, k, draws)
    requires c == b.(tried := b.tried[k := Chosen(b.tried[k], b.info, draws).0])
    ensures var (bucket, pos) := Chosen(b.tried[k], b.info, draws);
            Exchange(h, c, id, origin, k, bucket, pos) == Exchanged(h, b, id, origin, k, draws)
  {
    var (bucket, pos) := Chosen(b.tried[k], b.info, draws);
    assert c.tried[k := Replace(bucket, pos, id)] == b.tried[k := Replace(bucket, pos, id)];
  }

  ghost predicate CanExchange(c: Book, id: nat, origin: nat, k: nat, draws: seq<nat>) {
    && id in c.info && origin < |c.news| == NEW_BUCKET_COUNT && k < |c.tried| && Draws(draws, |c.tried[k]|)
    && Chosen(c.tried[k], c.info, draws).0[Chosen(c.tried[k], c.info, draws).1] in c.info
  }

  ghost function Exchanged(h: Hashes, c: Book, id: nat, origin: nat, k: nat, draws: seq<nat>): Book
    requires CanExchange(c, id, origin, k, draws)
  {
    var (bucket, pos) := Chosen(c.tried[k], c.info, draws);
    Exchange(h, c, id, origin, k, bucket, pos)
  }

  lemma ChosenMembers(bucket: seq<nat>, info: map<nat, Info>, draws: seq<nat>)
    requires Draws(draws, |bucket|)
    ensures Chosen(bucket, info, draws).0[Chosen(bucket, info, draws).1] in bucket
  {
    InspectMembers(bucket, Ages(info), draws, |draws|);
  }

  lemma {:induction false} InspectMembers(bucket: seq<nat>, age: nat -> int, draws: seq<nat>, n: nat)
    requires 1 <= n <= |draws| <= |bucket| && forall i :: 0 <= i < |draws| ==> i <= draws[i] < |bucket|
    ensures forall id :: id in Inspect(bucket, age, draws, n).0 ==> id in bucket
  {
    if n > 1 {
      InspectMembers(bucket, age, draws, n - 1);
    }
  }

  /** What MakeTried does: id ends in its tried bucket, with at most one exchange. */
  ghost predicate MovedToTried(h: Hashes, b: Book, c: Book, id: nat, origin: nat)
    requires id in b.info && |b.tried| == TRIED_BUCKET_COUNT
  {
    var k := h.TriedBucket(b.info[id].rec.addr);
    if |b.tried[k]| < TRIED_BUCKET_SIZE then c == PromoteInto(b, id, k)
    else exists draws :: CanExchange(Unplaced(b, id), id, origin, k, draws)
                         && c == Exchanged(h, Unplaced(b, id), id, origin, k, draws)
  }

  lemma ExchangeIsPromoteFor(h: Hashes, b: Book, id: nat, origin: nat, k: nat, bucket: seq<nat>, pos: nat, into: nat)
    requires id in b.info && origin < |b.news| == NEW_BUCKET_COUNT && k < |b.tried|
    requires pos < |bucket| && bucket[pos] in b.info && bucket[pos] != id
    requires into == var e := b.info[bucket[pos]].rec;
                     var u := h.NewBucket(e.addr.ip, e.source);
                     if |Purged(b.news, id)[u]| < NEW_BUCKET_SIZE then u else origin
    ensures Exchange(h, Unplaced(b, id), id, origin, k, bucket, pos)
         == PromoteFor(b.(tried := b.tried[k := bucket]), id, k, pos, into)
  {
  }

  lemma ExchangeKeepsInv(h: Hashes, b: Book, id: nat, origin: nat, k: nat, bucket: seq<nat>, pos: nat)
    requires k < |b.tried| && Inv(h, b.(tried := b.tried[k := bucket])) && id in b.info && !b.info[id].inTried && b.info[id].rec.lastSuccess > 0
    requires origin < |b.news| && id in b.news[origin]
    requires k == h.TriedBucket(b.info[id].rec.addr) && pos < |bucket|
    ensures bucket[pos] in b.info && Inv(h, Exchange(h, Unplaced(b, id), id, origin, k, bucket, pos))
  {
    var c := b.(tried := b.tried[k := bucket]);
    assert bucket[pos] in c.tried[k];
    PurgedSizes(b.news, id);
    var e := b.info[bucket[pos]].rec;
    var u := h.NewBucket(e.addr.ip, e.source);
    var into := if |Purged(b.news, id)[u]| < NEW_BUCKET_SIZE then u else origin;
    ExchangeIsPromoteFor(h, b, id, origin, k, bucket, pos, into);
    PromoteForKeepsInv(h, c, id, k, pos, into);
  }

  lemma UnplacedChosen(b: Book, id: nat, k: nat, draws: seq<nat>)
    requires id in b.info && k < |b.tried| && Draws(draws, |b.tried[k]|)
    ensures Chosen(b.tried[k], Unplaced(b, id).info, draws) == Chosen(b.tried[k], b.info, draws)
  {
    assert Unplaced(b, id).info.Keys == b.info.Keys;
    ChosenSame(b.tried[k], b.info, Unplaced(b, id).info, draws);
  }

  lemma ExchangedKeepsInv(h: Hashes, b: Book, id: nat, origin: nat, draws: seq<nat>)
    requires Inv(h, b) && id in b.info && !b.info[id].inTried && b.info[id].rec.lastSuccess > 0
    requires origin < |b.news| && id in b.news[origin]
    requires CanExchange(Unplaced(b, id), id, origin, h.TriedBucket(b.info[id].rec.addr), draws)
    ensures Inv(h, Exchanged(h, Unplaced(b, id), id, origin, h.TriedBucket(b.info[id].rec.addr), draws))
  {
    var k := h.TriedBucket(b.info[id].rec.addr);
    UnplacedChosen(b, id, k, draws);
    ChosenKeepsInv(h, b, k, draws);
    var (bucket, pos) := Chosen(b.tried[k], b.info, draws);
    ExchangeKeepsInv(h, b, id, origin, k, bucket, pos);
  }

  lemma ChosenKeepsInv(h: Hashes, b: Book, k: nat, draws: seq<nat>)
    requires Inv(h, b) && k < |b.tried| && Draws(draws, |b.tried[k]|)
    ensures Inv(h, b.(tried := b.tried[k := Chosen(b.tried[k], b.info, draws).0]))
  {
    ChosenKeepsTried(h, b.info, b.tried, k, draws);
  }

  lemma {:induction false} InspectSame(bucket: seq<nat>, age: nat -> int, other: nat -> int, draws: seq<nat>, n: nat)
    requires 1 <= n <= |draws| <= |bucket| && (forall i :: 0 <= i < |draws| ==> i <= draws[i] < |bucket|)
    requires forall id :: age(id) == other(id)
    ensures Inspect(bucket, age, draws, n) == Inspect(bucket, other, draws, n)
  {
    if n > 1 {
      InspectSame(bucket, age, other, draws, n - 1);
    }
  }

  lemma ChosenSame(bucket: seq<nat>, info: map<nat, Info>, other: map<nat, Info>, draws: seq<nat>)
    requires Draws(draws, |bucket|) && info.Keys == other.Keys
    requires forall id :: id in info ==> other[id].rec == info[id].rec
    ensures Chosen(bucket, info, draws) == Chosen(bucket, other, draws)
  {
    InspectSame(bucket, Ages(info), Ages(other), draws, |draws|);
  }

  lemma SwapMembers(s: seq<nat>, p: nat, q: nat)
    requires p < |s| && q < |s|
    ensures forall id :: id in s[p := s[q]][q := s[p]] ==> id in s
  {
  }

  /** The loop variables of Shuffle after the given draws. */
  ghost predicate Tracks(bucket: seq<nat>, info: map<nat, Info>, draws: seq<nat>, vTried: seq<nat>, pos: nat, nOldest: nat) {
    && |draws| <= |bucket| && (forall i :: 0 <= i < |draws| ==> i <= draws[i] < |bucket|)
    && if draws == [] then vTried == bucket else
         var (after, best, p) := Inspect(bucket, Ages(info), draws, |draws|);
         after == vTried && p == pos && nOldest == after[best]
  }

  lemma InspectOneMore(bucket: seq<nat>, age: nat -> int, draws: seq<nat>, nPos: nat)
    requires 1 <= |draws| < |bucket| && |draws| <= nPos < |bucket| && forall i :: 0 <= i < |draws| ==> i <= draws[i] < |bucket|
    ensures var (before, best, pos) := Inspect(bucket, age, draws, |draws|);
            var after := SwapRandom(before, nPos, |draws|);
            Inspect(bucket, age, draws + [nPos], |draws| + 1)
            == if age(after[|draws|]) < age(before[best]) then (after, |draws|, nPos) else (after, best, pos)
  {
    var more := draws + [nPos];
    InspectPrefix(bucket, age, draws, more, |draws|);
    var (before, best, p) := Inspect(bucket, age, draws, |draws|);
    assert SwapRandom(before, nPos, |draws|)[best] == before[best];
  }

  lemma TracksOneMore(bucket: seq<nat>, info: map<nat, Info>, draws: seq<nat>, vTried: seq<nat>, pos: nat, nOldest: nat, nPos: nat)
    requires Tracks(bucket, info, draws, vTried, pos, nOldest) && |draws| < |bucket| && |draws| <= nPos < |bucket|
    ensures var i := |draws|;
            var after := SwapRandom(vTried, nPos, i);
            var better := i == 0 || Ages(info)(after[i]) < Ages(info)(nOldest);
            Tracks(bucket, info, draws + [nPos], after, if better then nPos else pos, if better then after[i] else nOldest)
  {
    if draws != [] {
      InspectOneMore(bucket, Ages(info), draws, nPos);
      var (before, best, p) := Inspect(bucket, Ages(info), draws, |draws|);
      assert SwapRandom(before, nPos, |draws|)[best] == before[best];
    }
  }

  /** The shuffled bucket and the position chosen, given the draws. */
  function Chosen(bucket: seq<nat>, info: map<nat, Info>, draws: seq<nat>): (r: (seq<nat>, nat))
    requires Draws(draws, |bucket|)
    ensures |r.0| == |bucket| && r.1 < |bucket|
  {
    var (after, best, pos) := Inspect(bucket, Ages(info), draws, |draws|);
    (after, pos)
  }

  /** Of the entries at the front, of each of which the draw tells where it came from, one that was last seen to be good
      longest ago came from pos. */
  ghost predicate IsLeastRecent(info: map<nat, Info>, shuffled: seq<nat>, draws: seq<nat>, pos: nat) {
    && |draws| <= |shuffled| && (forall i :: 0 <= i < |shuffled| ==> shuffled[i] in info)
    && exists best :: 0 <= best < |draws| && draws[best] == pos
                      && forall i :: 0 <= i < |draws| ==>
                           info[shuffled[best]].rec.lastSuccess <= info[shuffled[i]].rec.lastSuccess
  }

  lemma ChosenIsLeastRecent(info: map<nat, Info>, bucket: seq<nat>, draws: seq<nat>)
    requires Draws(draws, |bucket|) && forall id :: id in bucket ==> id in info
    ensures IsLeastRecent(info, Chosen(bucket, info, draws).0, draws, Chosen(bucket, info, draws).1)
  {
    var (after, best, pos) := Inspect(bucket, Ages(info), draws, |draws|);
    InspectFindsOldest(bucket, Ages(info), draws, |draws|);
    InspectMembers(bucket, Ages(info), draws, |draws|);
    forall i | 0 <= i < |after| ensures after[i] in info {
      assert after[i] in after;
    }
    forall i | 0 <= i < |draws| ensures info[after[best]].rec.lastSuccess <= info[after[i]].rec.lastSuccess {
      assert Ages(info)(after[best]) <= Ages(info)(after[i]);
    }
  }

  lemma ChosenKeepsTried(h: Hashes, info: map<nat, Info>, tried: seq<seq<nat>>, k: nat, draws: seq<nat>)
    requires TriedOk(h, info, tried) && k < |tried| && Draws(draws, |tried[k]|)
    ensures TriedOk(h, info, tried[k := Chosen(tried[k], info, draws).0])
  {
    InspectPermutes(tried[k], Ages(info), draws, |draws|);
  }

  /** When each entry was last known to be good. */
  function Ages(info: map<nat, Info>): nat -> int {
    (id: nat) => if id in info then info[id].rec.lastSuccess else 0
  }

  lemma {:induction false} InspectPrefix(bucket: seq<nat>, age: nat -> int, draws: seq<nat>, more: seq<nat>, n: nat)
    requires 1 <= n <= |draws| <= |more| <= |bucket| && draws <= more
    requires forall i :: 0 <= i < |more| ==> i <= more[i] < |bucket|
    ensures Inspect(bucket, age, more, n) == Inspect(bucket, age, draws, n)
  {
    if n > 1 {
      InspectPrefix(bucket, age, draws, more, n - 1);
    }
  }
}
