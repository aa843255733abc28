/** Grouping a wallet's addresses: those that were inputs of one transaction, or its change, belong together. */
module AddressGroups {
  import opened Options

  type Address = nat

  datatype TxIn = TxIn(isMine: bool, address: Option<Address>)
  datatype TxOut = TxOut(isMine: bool, isChange: bool, address: Option<Address>)
  datatype WalletTx = WalletTx(vin: seq<TxIn>, vout: seq<TxOut>)

  // ---- What the wallet's transactions say ----

  function Inputs(tx: WalletTx): set<Address> {
    set i | 0 <= i < |tx.vin| && tx.vin[i].isMine && tx.vin[i].address.Some? :: tx.vin[i].address.value
  }

  function Change(tx: WalletTx): set<Address> {
    set i | 0 <= i < |tx.vout| && tx.vout[i].isChange && tx.vout[i].address.Some? :: tx.vout[i].address.value
  }

  /** The wallet's inputs and the change of one transaction; empty if no input is the wallet's. */
  function Spent(tx: WalletTx): (spent: set<Address>)
    ensures forall a :: a in spent <==>
                          && (exists i :: 0 <= i < |tx.vin| && tx.vin[i].isMine && tx.vin[i].address.Some?)
                          && ((exists i :: 0 <= i < |tx.vin| && tx.vin[i].isMine && tx.vin[i].address == Some(a))
                              || exists i :: 0 <= i < |tx.vout| && tx.vout[i].isChange && tx.vout[i].address == Some(a))
  {
    SpentIs(tx);
    if Inputs(tx) == {} then {} else Inputs(tx) + Change(tx)
  }

  lemma SpentIs(tx: WalletTx)
    ensures forall a :: a in Inputs(tx) <==> exists i :: 0 <= i < |tx.vin| && tx.vin[i].isMine && tx.vin[i].address == Some(a)
    ensures forall a :: a in Change(tx) <==> exists i :: 0 <= i < |tx.vout| && tx.vout[i].isChange && tx.vout[i].address == Some(a)
    ensures Inputs(tx) != {} <==> exists i :: 0 <= i < |tx.vin| && tx.vin[i].isMine && tx.vin[i].address.Some?
  {
    forall i | 0 <= i < |tx.vin| && tx.vin[i].isMine && tx.vin[i].address.Some? ensures tx.vin[i].address.value in Inputs(tx) {}
  }

  ghost predicate Received(tx: WalletTx, a: Address) {
    exists i :: 0 <= i < |tx.vout| && tx.vout[i].isMine && tx.vout[i].address == Some(a)
  }

  /** g is a grouping that transaction tx gives rise to. */
  ghost predicate FromTx(tx: WalletTx, g: set<Address>) {
    (g != {} && g == Spent(tx)) || (exists a :: g == {a} && Received(tx, a))
  }

  ghost predicate FromWallet(wallet: seq<WalletTx>, n: nat, g: set<Address>)
    requires n <= |wallet|
  {
    exists t :: 0 <= t < n && FromTx(wallet[t], g)
  }

  method GroupInputs(tx: WalletTx) returns (grouping: set<Address>)
    ensures grouping == Spent(tx)
  {
    grouping := {};
    var anyMine := false;
    for i := 0 to |tx.vin|
      invariant grouping == set j | 0 <= j < i && tx.vin[j].isMine && tx.vin[j].address.Some? :: tx.vin[j].address.value
      invariant anyMine <==> grouping != {}
    {
      if tx.vin[i].isMine && tx.vin[i].address.Some? {
        grouping := grouping + {tx.vin[i].address.value};
        anyMine := true;
      }
    }
    assert grouping == Inputs(tx);
    if anyMine {
      for i := 0 to |tx.vout|
        invariant grouping == Inputs(tx) + set j | 0 <= j < i && tx.vout[j].isChange && tx.vout[j].address.Some? :: tx.vout[j].address.value
      {
        if tx.vout[i].isChange && tx.vout[i].address.Some? {
          grouping := grouping + {tx.vout[i].address.value};
        }
      }
    }
  }

  /** g is the address of one of the wallet's outputs before i. */
  ghost predicate Lone(tx: WalletTx, i: nat, g: set<Address>)
    requires i <= |tx.vout|
  {
    exists j :: 0 <= j < i && tx.vout[j].isMine && tx.vout[j].address.Some? && g == {tx.vout[j].address.value}
  }

  method GroupsOfTx(tx: WalletTx, before: set<set<Address>>) returns (groupings: set<set<Address>>)
    ensures forall g :: g in groupings <==> g in before || FromTx(tx, g)
  {
    groupings := before;
    if |tx.vin| > 0 {
      var grouping := GroupInputs(tx);
      if |grouping| > 0 {
        groupings := groupings + {grouping};
      }
    }
    assert |tx.vin| == 0 ==> Inputs(tx) == {};
    var i := 0;
    while i < |tx.vout|
      invariant 0 <= i <= |tx.vout|
      invariant forall g :: g in groupings <==> g in before || (g != {} && g == Spent(tx)) || Lone(tx, i, g)
    {
      if tx.vout[i].isMine && tx.vout[i].address.Some? {
        groupings := groupings + {{tx.vout[i].address.value}};
      }
      i := i + 1;
    }
    forall g ensures g in groupings <==> g in before || FromTx(tx, g) {
      if a :| g == {a} && Received(tx, a) {
        var j :| 0 <= j < |tx.vout| && tx.vout[j].isMine && tx.vout[j].address == Some(a);
        assert g == {tx.vout[j].address.value};
      }
      if Lone(tx, |tx.vout|, g) {
        var j :| 0 <= j < |tx.vout| && tx.vout[j].isMine && tx.vout[j].address.Some? && g == {tx.vout[j].address.value};
        assert Received(tx, tx.vout[j].address.value);
      }
    }
  }

  method CollectGroupings(wallet: seq<WalletTx>) returns (groupings: set<set<Address>>)
    ensures forall g :: g in groupings <==> FromWallet(wallet, |wallet|, g)
    ensures {} !in groupings
  {
    groupings := {};
    for t := 0 to |wallet|
      invariant forall g :: g in groupings <==> FromWallet(wallet, t, g)
    {
      groupings := GroupsOfTx(wallet[t], groupings);
      forall g ensures FromWallet(wallet, t + 1, g) <==> FromWallet(wallet, t, g) || FromTx(wallet[t], g) {
      }
    }
  }

  // ---- The finest partition ----

  ghost predicate InOrOut(g: set<Address>, C: set<Address>) {
    g <= C || g !! C
  }

  /** No grouping is split by C. */
  ghost predicate Closed(C: set<Address>, groupings: set<set<Address>>) {
    forall g :: g in groupings ==> InOrOut(g, C)
  }

  ghost function Union(groupings: set<set<Address>>): set<Address> {
    set g, a | g in groupings && a in g :: a
  }

  /** The blocks are disjoint, nonempty and cover the addresses; every grouping lies in one; and whatever does not
      split a grouping does not split a block. */
  ghost predicate FinestPartition(blocks: set<set<Address>>, groupings: set<set<Address>>) {
    && {} !in blocks
    && (forall b, c :: b in blocks && c in blocks && b != c ==> b !! c)
    && Union(blocks) == Union(groupings)
    && (forall g :: g in groupings ==> exists b :: b in blocks && g <= b)
    && (forall C :: Closed(C, groupings) ==> Closed(C, blocks))
  }

  lemma BlockIsClosed(blocks: set<set<Address>>, groupings: set<set<Address>>, b: set<Address>)
    requires FinestPartition(blocks, groupings) && b in blocks
    ensures Closed(b, groupings)
  {
    forall g | g in groupings ensures InOrOut(g, b) {
      var c :| c in blocks && g <= c;
      assert b != c ==> b !! c;
    }
  }

  lemma FinerBlock(blocks: set<set<Address>>, others: set<set<Address>>, groupings: set<set<Address>>, b: set<Address>)
    requires FinestPartition(blocks, groupings) && FinestPartition(others, groupings) && b in blocks
    ensures b in others
  {
    assert b != {};
    var a :| a in b;
    assert a in Union(blocks);
    var c :| c in others && a in c;
    BlockIsClosed(others, groupings, c);
    BlockIsClosed(blocks, groupings, b);
    assert InOrOut(b, c) && InOrOut(c, b);
    assert b == c;
  }

  /** There is only one such partition, so the order in which groupings are taken does not matter. */
  lemma PartitionIsUnique(blocks: set<set<Address>>, others: set<set<Address>>, groupings: set<set<Address>>)
    requires FinestPartition(blocks, groupings) && FinestPartition(others, groupings)
    ensures blocks == others
  {
    forall b ensures b in blocks <==> b in others {
      if b in blocks {
        FinerBlock(blocks, others, groupings, b);
      }
      if b in others {
        FinerBlock(others, blocks, groupings, b);
      }
    }
  }

  // ---- Connected components ----

  /** Some grouping holds both. */
  ghost predicate Together(groupings: set<set<Address>>, a: Address, b: Address) {
    exists g :: g in groupings && a in g && b in g
  }

  ghost predicate Path(groupings: set<set<Address>>, path: seq<Address>) {
    forall i :: 0 <= i < |path| - 1 ==> Together(groupings, path[i], path[i + 1])
  }

  /** A chain of groupings leads from a to b. */
  ghost predicate Linked(groupings: set<set<Address>>, a: Address, b: Address) {
    exists path :: path != [] && path[0] == a && path[|path| - 1] == b && Path(groupings, path)
  }

  lemma {:induction false} PathStays(groupings: set<set<Address>>, path: seq<Address>, C: set<Address>, i: nat)
    requires Path(groupings, path) && Closed(C, groupings) && i < |path| && path[0] in C
    ensures path[i] in C
  {
    if i > 0 {
      PathStays(groupings, path, C, i - 1);
      var g :| g in groupings && path[i - 1] in g && path[i - 1 + 1] in g;
      assert InOrOut(g, C);
    }
  }

  lemma LinkedOneMore(groupings: set<set<Address>>, a: Address, b: Address, c: Address)
    requires Linked(groupings, a, b) && Together(groupings, b, c)
    ensures Linked(groupings, a, c)
  {
    var path :| path != [] && path[0] == a && path[|path| - 1] == b && Path(groupings, path);
    var more := path + [c];
    forall i | 0 <= i < |more| - 1 ensures Together(groupings, more[i], more[i + 1]) {
      assert i < |path| - 1 ==> Together(groupings, path[i], path[i + 1]);
    }
    assert Path(groupings, more);
  }

  lemma ComponentIsClosed(groupings: set<set<Address>>, a: Address, C: set<Address>)
    requires C == set b | b in Union(groupings) && Linked(groupings, a, b)
    ensures Closed(C, groupings)
  {
    forall g | g in groupings ensures InOrOut(g, C) {
      if b :| b in g && b in C {
        forall c | c in g ensures c in C {
          assert Together(groupings, b, c);
          LinkedOneMore(groupings, a, b, c);
        }
      }
    }
  }

  /** The blocks are the connected components: an address is in the block of a exactly if a chain of groupings
      leads there. */
  lemma BlocksAreComponents(blocks: set<set<Address>>, groupings: set<set<Address>>, block: set<Address>, a: Address, b: Address)
    requires FinestPartition(blocks, groupings) && block in blocks && a in block
    ensures b in block <==> Linked(groupings, a, b)
  {
    BlockIsClosed(blocks, groupings, block);
    if Linked(groupings, a, b) {
      var path :| path != [] && path[0] == a && path[|path| - 1] == b && Path(groupings, path);
      PathStays(groupings, path, block, |path| - 1);
    }
    if b in block {
      var C := set c | c in Union(groupings) && Linked(groupings, a, c);
      ComponentIsClosed(groupings, a, C);
      assert a in Union(blocks);
      assert Path(groupings, [a]) && [a][0] == a;
      assert Closed(C, blocks) && InOrOut(block, C) && a in C;
    }
  }

  // ---- The merge loop ----

  /** A group of addresses, held by pointer. */
  class Group {
    var members: set<Address>

    constructor (s: set<Address>)
      ensures members == s
    {
      members := s;
    }
  }

  /** The live groups are disjoint, and every address points to the live group that holds it. */
  ghost predicate Indexed(live: map<Group, set<Address>>, setmap: map<Address, Group>) {
    && (forall a :: a in setmap ==> setmap[a] in live && a in live[setmap[a]])
    && (forall g, a :: g in live && a in live[g] ==> a in setmap && setmap[a] == g)
    && (forall g :: g in live ==> live[g] != {})
  }

  ghost predicate InSome(live: map<Group, set<Address>>, d: set<Address>) {
    exists g :: g in live && d <= live[g]
  }

  ghost predicate Covered(members: set<Address>, done: set<set<Address>>) {
    forall a :: a in members ==> exists d :: d in done && a in d
  }

  /** No group is split by C. */
  ghost predicate NotSplit(live: map<Group, set<Address>>, C: set<Address>) {
    forall g :: g in live ==> InOrOut(live[g], C)
  }

  /** The live groups are the finest partition for the groupings done so far. */
  ghost predicate Merges(live: map<Group, set<Address>>, done: set<set<Address>>) {
    && (forall d :: d in done ==> InSome(live, d))
    && (forall g :: g in live ==> Covered(live[g], done))
    && (forall C :: Closed(C, done) ==> NotSplit(live, C))
  }

  /** One of the given groups holds the address. */
  ghost predicate Held(live: map<Group, set<Address>>, groups: set<Group>, a: Address) {
    exists g :: g in groups && g in live && a in live[g]
  }

  /** What merging a grouping with the groups it hits makes. */
  ghost predicate MergedInto(
    live: map<Group, set<Address>>, grouping: set<Address>, hits: set<Group>, merged: Group, after: map<Group, set<Address>>)
  {
    && hits <= live.Keys && merged !in live
    && (forall g :: g in live ==> (g in hits <==> live[g] * grouping != {}))
    && merged in after && (forall a :: a in after[merged] <==> a in grouping || Held(live, hits, a))
    && after.Keys == live.Keys - hits + {merged}
    && (forall g :: g in live && g !in hits ==> after[g] == live[g])
  }

  /** No group outside the hits shares an address with the merged group. */
  lemma MergedApart(
    live: map<Group, set<Address>>, setmap: map<Address, Group>, grouping: set<Address>, hits: set<Group>, merged: Group,
    after: map<Group, set<Address>>, g: Group, a: Address)
    requires Indexed(live, setmap) && MergedInto(live, grouping, hits, merged, after)
    requires g in live && g !in hits && a in live[g]
    ensures a !in after[merged]
  {
    assert setmap[a] == g;
    assert a !in live[g] * grouping;
  }

  lemma MergedIsIndexed(
    live: map<Group, set<Address>>, setmap: map<Address, Group>, grouping: set<Address>, hits: set<Group>, merged: Group,
    after: map<Group, set<Address>>, setmapAfter: map<Address, Group>)
    requires Indexed(live, setmap) && MergedInto(live, grouping, hits, merged, after) && grouping != {}
    requires setmapAfter.Keys == setmap.Keys + after[merged]
    requires forall a :: a in setmapAfter ==> setmapAfter[a] == if a in after[merged] then merged else setmap[a]
    ensures Indexed(after, setmapAfter)
  {
    forall a | a in setmapAfter ensures setmapAfter[a] in after && a in after[setmapAfter[a]] {
      if a !in after[merged] {
        assert setmap[a] in live && a in live[setmap[a]];
        assert setmap[a] in hits ==> Held(live, hits, a);
      }
    }
    forall g, a | g in after && a in after[g] ensures a in setmapAfter && setmapAfter[a] == g {
      if g != merged {
        MergedApart(live, setmap, grouping, hits, merged, after, g, a);
      }
    }
    forall g | g in after ensures after[g] != {} {
      if g == merged {
        var a :| a in grouping;
        assert a in after[merged];
      }
    }
  }

  lemma MergedMerges(
    live: map<Group, set<Address>>, done: set<set<Address>>, grouping: set<Address>, hits: set<Group>, merged: Group,
    after: map<Group, set<Address>>)
    requires Merges(live, done) && MergedInto(live, grouping, hits, merged, after)
    ensures Merges(after, done + {grouping})
  {
    var more := done + {grouping};
    forall d | d in more ensures exists g :: g in after && d <= after[g] {
      if d == grouping {
        assert d <= after[merged];
      } else {
        var g: Group :| g in live && d <= live[g];
        assert d <= after[if g in hits then merged else g];
      }
    }
    forall g | g in after ensures after[g] <= Union(more) {
      forall a | a in after[g] ensures a in Union(more) {
        if g == merged && a !in grouping {
          var h: Group :| h in hits && h in live && a in live[h];
          assert a in Union(done);
        } else if g == merged {
          assert grouping in more;
        } else {
          assert a in Union(done);
        }
      }
    }
    forall C | Closed(C, more) ensures forall g :: g in after ==> InOrOut(after[g], C) {
      MergedNotSplit(live, done, grouping, hits, merged, after, C);
    }
  }

  lemma MergedNotSplit(
    live: map<Group, set<Address>>, done: set<set<Address>>, grouping: set<Address>, hits: set<Group>, merged: Group,
    after: map<Group, set<Address>>, C: set<Address>)
    requires Merges(live, done) && MergedInto(live, grouping, hits, merged, after) && Closed(C, done + {grouping})
    ensures forall g :: g in after ==> InOrOut(after[g], C)
  {
    assert Closed(C, done) by {
      forall d | d in done ensures InOrOut(d, C) {
        assert d in done + {grouping};
      }
    }
    assert InOrOut(grouping, C) by { assert grouping in done + {grouping}; }
    forall h | h in hits ensures if grouping <= C then live[h] <= C else live[h] !! C {
      var a :| a in live[h] * grouping;
      assert InOrOut(live[h], C);
    }
  }

  /** The groups hit by a grouping. */
  method FindHits(grouping: set<Address>, setmap: map<Address, Group>) returns (hits: set<Group>)
    ensures forall g :: g in hits <==> exists a :: a in grouping && a in setmap && setmap[a] == g
  {
    hits := {};
    var rest := grouping;
    while rest != {}
      invariant rest <= grouping
      invariant forall g :: g in hits <==> exists a :: a in grouping - rest && a in setmap && setmap[a] == g
      decreases rest
    {
      var address :| address in rest;
      if address in setmap {
        hits := hits + {setmap[address]};
      }
      rest := rest - {address};
    }
  }

  /** The members of all the given groups. */
  ghost function All(groups: set<Group>): set<Address>
    reads groups
  {
    set g, a | g in groups && a in g.members :: a
  }

  /** Merges a grouping and the groups it hits into a new group. */
  method MergeHits(grouping: set<Address>, hits: set<Group>, unique: set<Group>) returns (merged: Group, uniqueGroupings: set<Group>)
    ensures fresh(merged)
    ensures merged.members == grouping + All(hits)
    ensures uniqueGroupings == unique - hits + {merged}
  {
    merged := new Group(grouping);
    uniqueGroupings := unique;
    var rest := hits;
    while rest != {}
      invariant rest <= hits && uniqueGroupings == unique - (hits - rest)
      invariant merged.members == grouping + All(hits - rest)
      invariant merged !in hits
      modifies merged
      decreases rest
    {
      var hit :| hit in rest;
      assert All(hits - (rest - {hit})) == All(hits - rest) + hit.members;
      merged.members := merged.members + hit.members;
      uniqueGroupings := uniqueGroupings - {hit};
      rest := rest - {hit};
    }
    uniqueGroupings := uniqueGroupings + {merged};
  }

  /** Points the members of a group to it. */
  method PointTo(merged: Group, setmap: map<Address, Group>) returns (after: map<Address, Group>)
    ensures after.Keys == setmap.Keys + merged.members
    ensures forall a :: a in after ==> after[a] == if a in merged.members then merged else setmap[a]
  {
    after := setmap;
    var rest := merged.members;
    while rest != {}
      invariant rest <= merged.members
      invariant after.Keys == setmap.Keys + (merged.members - rest)
      invariant forall a :: a in after ==> after[a] == if a in merged.members - rest then merged else setmap[a]
      decreases rest
    {
      var element :| element in rest;
      after := after[element := merged];
      rest := rest - {element};
    }
  }

  ghost function Members(unique: set<Group>): map<Group, set<Address>>
    reads unique
  {
    map g | g in unique :: g.members
  }

  lemma HitsAreHit(live: map<Group, set<Address>>, setmap: map<Address, Group>, grouping: set<Address>, hits: set<Group>)
    requires Indexed(live, setmap)
    requires forall g :: g in hits <==> exists a :: a in grouping && a in setmap && setmap[a] == g
    ensures hits <= live.Keys && forall g :: g in live ==> (g in hits <==> live[g] * grouping != {})
  {
    forall g | g in live ensures g in hits <==> live[g] * grouping != {} {
      if a :| a in live[g] * grouping {
        assert setmap[a] == g;
      }
      if g in hits {
        var a :| a in grouping && a in setmap && setmap[a] == g;
        assert a in live[g] * grouping;
      }
    }
  }

  lemma MergedIsMerged(
    live: map<Group, set<Address>>, grouping: set<Address>, hits: set<Group>, merged: Group, after: map<Group, set<Address>>,
    held: set<Address>)
    requires hits <= live.Keys && merged !in live && forall g :: g in live ==> (g in hits <==> live[g] * grouping != {})
    requires after.Keys == live.Keys - hits + {merged} && (forall g :: g in live && g !in hits ==> after[g] == live[g])
    requires after[merged] == grouping + held && (forall a :: a in held <==> Held(live, hits, a))
    ensures MergedInto(live, grouping, hits, merged, after)
  {
  }

  ghost predicate Ready(unique: set<Group>, setmap: map<Address, Group>, done: set<set<Address>>)
    reads unique
  {
    Arranged(Members(unique), setmap, done)
  }

  ghost predicate Arranged(live: map<Group, set<Address>>, setmap: map<Address, Group>, done: set<set<Address>>) {
    Indexed(live, setmap) && Merges(live, done)
  }

  /** Takes one more grouping into account. */
  method MergeOne(grouping: set<Address>, unique: set<Group>, setmap: map<Address, Group>, ghost done: set<set<Address>>)
    returns (uniqueGroupings: set<Group>, setmapAfter: map<Address, Group>)
    requires Ready(unique, setmap, done) && grouping != {}
    ensures Ready(uniqueGroupings, setmapAfter, done + {grouping})
  {
    ghost var live := Members(unique);
    var hits := FindHits(grouping, setmap);
    HitsAreHit(live, setmap, grouping, hits);
    ghost var held := All(hits);
    assert forall a :: a in held <==> Held(live, hits, a);
    var merged;
    merged, uniqueGroupings, setmapAfter := MergeInto(grouping, hits, unique, setmap);
    ghost var after := Members(uniqueGroupings);
    MergedIsMerged(live, grouping, hits, merged, after, held);
    MergedIsIndexed(live, setmap, grouping, hits, merged, after, setmapAfter);
    MergedMerges(live, done, grouping, hits, merged, after);
  }

  /** The new group, and the indexes with it in place of the groups hit. */
  method MergeInto(grouping: set<Address>, hits: set<Group>, unique: set<Group>, setmap: map<Address, Group>)
    returns (merged: Group, uniqueGroupings: set<Group>, after: map<Address, Group>)
    requires hits <= unique
    ensures fresh(merged) && merged.members == grouping + old(All(hits))
    ensures Members(uniqueGroupings).Keys == old(Members(unique)).Keys - hits + {merged}
    ensures Members(uniqueGroupings)[merged] == merged.members
    ensures forall g :: g in unique && g !in hits ==> Members(uniqueGroupings)[g] == old(Members(unique))[g]
    ensures after.Keys == setmap.Keys + merged.members
    ensures forall a :: a in after ==> after[a] == if a in merged.members then merged else setmap[a]
  {
    merged, uniqueGroupings := MergeHits(grouping, hits, unique);
    after := PointTo(merged, setmap);
  }

  /** The groups themselves. */
  method Unwrap(unique: set<Group>) returns (ret: set<set<Address>>)
    ensures ret == Members(unique).Values
  {
    ret := {};
    var left := unique;
    while left != {}
      invariant left <= unique
      invariant ret == set g | g in unique && g !in left :: g.members
      decreases left
    {
      var uniqueGrouping :| uniqueGrouping in left;
      ret := ret + {uniqueGrouping.members};
      left := left - {uniqueGrouping};
    }
    forall b ensures b in ret <==> b in Members(unique).Values {
      if b in ret {
        var g :| g in unique && g.members == b;
        assert Members(unique)[g] == b;
      }
    }
  }

  lemma NothingYet(groupings: set<set<Address>>)
    ensures Ready({}, map[], groupings - groupings)
  {
    assert Members({}) == map[];
  }

  /** The loop over the groupings. */
  method MergeAll(groupings: set<set<Address>>) returns (uniqueGroupings: set<Group>, setmap: map<Address, Group>)
    requires {} !in groupings
    ensures Ready(uniqueGroupings, setmap, groupings)
  {
    uniqueGroupings, setmap := {}, map[];
    var rest := groupings;
    NothingYet(groupings);
    while rest != {}
      invariant rest <= groupings
      invariant Ready(uniqueGroupings, setmap, groupings - rest)
      decreases rest
    {
      var grouping :| grouping in rest;
      TakenOneMore(groupings, rest, grouping);
      uniqueGroupings, setmap := MergeOne(grouping, uniqueGroupings, setmap, groupings - rest);
      rest := rest - {grouping};
    }
    AllTaken(groupings);
  }

  lemma TakenOneMore<T>(all: set<T>, rest: set<T>, one: T)
    requires rest <= all && one in rest
    ensures all - rest + {one} == all - (rest - {one})
  {
  }

  lemma AllTaken<T>(all: set<T>)
    ensures all - {} == all
  {
  }

  /** Merges the groupings, one after the other, into the finest partition. */
  method MergeGroupings(groupings: set<set<Address>>) returns (ret: set<set<Address>>)
    requires {} !in groupings
    ensures FinestPartition(ret, groupings)
  {
    var uniqueGroupings, setmap := MergeAll(groupings);
    ret := Unwrap(uniqueGroupings);
    BlocksOfLive(Members(uniqueGroupings), setmap, groupings);
  }

  lemma BlocksOfLive(live: map<Group, set<Address>>, setmap: map<Address, Group>, groupings: set<set<Address>>)
    requires Indexed(live, setmap) && Merges(live, groupings)
    ensures FinestPartition(live.Values, groupings)
  {
    var blocks := live.Values;
    forall b, c | b in blocks && c in blocks && b != c ensures b !! c {
      BlocksDisjoint(live, setmap, b, c);
    }
    BlocksCover(live, groupings);
    forall d | d in groupings ensures exists b :: b in blocks && d <= b {
      BlockAround(live, groupings, d);
    }
    forall C | Closed(C, groupings) ensures Closed(C, blocks) {
      BlocksNotSplit(live, groupings, C);
    }
  }

  lemma BlockAround(live: map<Group, set<Address>>, groupings: set<set<Address>>, d: set<Address>)
    requires Merges(live, groupings) && d in groupings
    ensures exists b :: b in live.Values && d <= b
  {
    var g: Group :| g in live && d <= live[g];
    assert live[g] in live.Values;
  }

  lemma BlocksNotSplit(live: map<Group, set<Address>>, groupings: set<set<Address>>, C: set<Address>)
    requires Merges(live, groupings) && Closed(C, groupings)
    ensures Closed(C, live.Values)
  {
    forall b | b in live.Values ensures InOrOut(b, C) {
      var g: Group :| g in live && live[g] == b;
    }
  }

  lemma BlocksDisjoint(live: map<Group, set<Address>>, setmap: map<Address, Group>, b: set<Address>, c: set<Address>)
    requires Indexed(live, setmap) && b in live.Values && c in live.Values && b != c
    ensures b !! c
  {
    var g: Group :| g in live && live[g] == b;
    var h: Group :| h in live && live[h] == c;
    forall a | a in b ensures a !in c {
      assert setmap[a] == g;
    }
  }

  lemma BlocksCover(live: map<Group, set<Address>>, groupings: set<set<Address>>)
    requires Merges(live, groupings)
    ensures Union(live.Values) == Union(groupings)
  {
    forall a ensures a in Union(live.Values) <==> a in Union(groupings) {
      if a in Union(groupings) {
        var d :| d in groupings && a in d;
        var g: Group :| g in live && d <= live[g];
        assert live[g] in live.Values;
      }
      if a in Union(live.Values) {
        var b :| b in live.Values && a in b;
        var g: Group :| g in live && live[g] == b;
      }
    }
  }

  /** The groups of a wallet's addresses. */
  method GetAddressGroupings(wallet: seq<WalletTx>) returns (ret: set<set<Address>>, ghost groupings: set<set<Address>>)
    ensures forall g :: g in groupings <==> FromWallet(wallet, |wallet|, g)
    ensures FinestPartition(ret, groupings)
  {
    var collected := CollectGroupings(wallet);
    groupings := collected;
    ret := MergeGroupings(collected);
  }
}
