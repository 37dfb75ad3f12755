/** The loops of dag/graph_info.go, each proved against the meaning given in Dag and Sync, and the
    sending loop of node/node.go. */
module GraphInfo {
  import opened Common
  import opened Dag
  import opened Sync
  import Tips

  class GraphInfoGetter {
    const db: Store
    const cfg: Config
    const parentList: seq<Hash>
    var bestParent: Hash

    /** An empty parent list leaves the zero hash as best parent. */
    constructor (db: Store, parentList: seq<Hash>, cfg: Config)
      requires forall p :: p in parentList ==> GetUnit(db, p).hash == p
      ensures this.db == db && this.parentList == parentList && this.cfg == cfg
      ensures parentList == [] ==> bestParent == 0
      ensures parentList != [] ==> IsBestParent(db, parentList, bestParent)
    {
      this.db, this.parentList, this.cfg := db, parentList, cfg;
      bestParent := 0;
      new;
      var b := GetBestParentUnit();
    }

    method GetBestParentUnit() returns (b: Hash)
      requires forall p :: p in parentList ==> GetUnit(db, p).hash == p
      modifies this`bestParent
      ensures parentList == [] ==> b == 0 && bestParent == old(bestParent)
      ensures parentList != [] ==> b in parentList && IsBestParent(db, parentList, b) && bestParent == b
      ensures forall p :: p in parentList ==>
        var u, v := GetUnit(db, p), GetUnit(db, b);
        && u.witnessedLevel <= v.witnessedLevel
        && (u.witnessedLevel == v.witnessedLevel ==> v.level <= u.level)
        && (u.witnessedLevel == v.witnessedLevel && u.level == v.level ==> v.key <= u.key)
    {
      if |parentList| == 0 {
        return 0;
      }
      var best := GetUnit(db, parentList[0]);
      for i := 0 to |parentList|
        invariant best.hash in parentList && best == GetUnit(db, best.hash)
        invariant forall p :: p in parentList[..i] ==> !Better(GetUnit(db, p), best)
      {
        var t := GetUnit(db, parentList[i]);
        ghost var was := best;
        if best.witnessedLevel < t.witnessedLevel {
          best := t;
        } else if best.witnessedLevel == t.witnessedLevel && best.level > t.level {
          best := t;
        } else if best.witnessedLevel == t.witnessedLevel && best.level == t.level && best.key > t.key {
          best := t;
        }
        forall p | p in parentList[..i + 1] ensures !Better(GetUnit(db, p), best) {
          assert p in parentList[..i] || p == parentList[i];
        }
      }
      assert parentList[..|parentList|] == parentList;
      bestParent := best.hash;
      b := bestParent;
      BestParentIff(db, parentList, b);
    }

    method GetLevel() returns (level: int)
      ensures IsLevelOver(db, parentList, level)
    {
      level := 0;
      for i := 0 to |parentList|
        invariant level >= 0
        invariant forall p :: p in parentList[..i] ==> GetUnit(db, p).level <= level
        invariant level == 0 || exists p :: p in parentList && GetUnit(db, p).level == level
      {
        var unit := GetUnit(db, parentList[i]);
        if unit.level > level {
          level := unit.level;
        }
        assert parentList[..i + 1] == parentList[..i] + [parentList[i]];
      }
      assert parentList[..|parentList|] == parentList;
      level := level + 1;
    }

    method GetWitnessLevel() returns (wl: int)
      requires Chained(db, cfg) && bestParent in db
      ensures wl == Walk(db, cfg, bestParent, {})
      ensures cfg.majority > 0 ==> IsWitnessedLevel(db, cfg, bestParent, wl)
    {
      if cfg.majority > 0 { WalkIsWitnessedLevel(db, cfg, bestParent, Walk(db, cfg, bestParent, {})); }
      var seen: set<Address> := {};
      wl := db[bestParent].level;
      var que := [bestParent];
      while que != []
        invariant |que| == 1 && que[0] in db
        invariant db[que[0]].level <= wl
        invariant Walk(db, cfg, que[0], seen) == Walk(db, cfg, bestParent, {})
        decreases db[que[0]].level
      {
        var unit := db[que[0]];
        que := que[1..];
        if unit.author in cfg.witnesses {
          seen := seen + {unit.author};
          if unit.level < wl {
            wl := unit.level;
          }
          if |seen| == cfg.majority {
            return;
          }
        }
        if unit.hash == cfg.genesis {
          return 0;
        }
        que := que + [unit.bestParent];
      }
    }

    /** The unit the node builds over the current tips keeps the invariant of the store when saved. */
    method BuildTransactionUnit(hash: Hash, key: nat, author: Address) returns (u: Unit)
      requires Inv(db, cfg) && parentList != [] && forall p :: p in parentList ==> p in db
      requires hash !in db
      modifies this`bestParent
      ensures u.hash == hash && u.parents == parentList && !u.isStable && u.mci == 0
      ensures WellBuilt(db, cfg, u) && Inv(Apply(db, Save(u)), cfg)
      ensures forall p :: p in parentList ==>
        db[p].witnessedLevel <= u.witnessedLevel < u.level && db[p].level < u.level
    {
      var b := GetBestParentUnit();
      var level := GetLevel();
      var wl := GetWitnessLevel();
      u := Unit(hash, key, author, parentList, b, level, wl, false, 0);
      StepKeepsInv(db, cfg, Save(u));
      forall p | p in parentList ensures db[p].witnessedLevel <= u.witnessedLevel < u.level && db[p].level < u.level {
        WitnessedLevelOverParents(Apply(db, Save(u)), cfg, hash, p);
      }
    }

    /** The breadth-first selection: the maps it leaves hold exactly what is reached. */
    method SelectMissing(known: int) returns (stable: map<Hash, Unit>, unstable: map<Hash, Unit>)
      ensures forall h :: h in stable <==> Reached(db, parentList, known, h) && GetUnit(db, h).isStable
      ensures forall h :: h in unstable <==>
        h in parentList || (Reached(db, parentList, known, h) && !GetUnit(db, h).isStable)
      ensures forall h :: h in stable ==> stable[h] == GetUnit(db, h)
      ensures forall h :: h in unstable ==> unstable[h] == GetUnit(db, h)
    {
      var que: seq<Hash>;
      unstable, que := Seed();
      stable := map[];
      ghost var all := AllNamed();
      while que != []
        invariant Sound(known, stable, unstable)
        invariant stable.Keys <= all && unstable.Keys <= all
        invariant Pending(known, stable.Keys, unstable.Keys, que)
        decreases all - unstable.Keys, all - stable.Keys, |que|
      {
        var h := que[0];
        assert h in que && h in stable.Keys + unstable.Keys;
        ghost var s0, u0, que0 := stable.Keys, unstable.Keys, que;
        que := que[1..];
        stable, unstable, que := Expand(known, h, stable, unstable, que);
        PendingStep(known, s0, u0, que0, stable.Keys, unstable.Keys, que);
        Shrinks(all, u0, unstable.Keys);
        Shrinks(all, s0, stable.Keys);
      }
      AllCollected(known, stable, unstable);
    }

    /** When the queue is empty, everything reached has been collected. */
    lemma AllCollected(known: int, stable: map<Hash, Unit>, unstable: map<Hash, Unit>)
      requires Sound(known, stable, unstable) && Pending(known, stable.Keys, unstable.Keys, [])
      ensures forall h :: Reached(db, parentList, known, h) ==>
        h in (if GetUnit(db, h).isStable then stable else unstable)
    {
      forall h | Reached(db, parentList, known, h)
        ensures h in (if GetUnit(db, h).isStable then stable else unstable)
      {
        var path :| AdmittedPath(db, parentList, known, path) && |path| >= 2 && path[|path| - 1] == h;
        ClosedHoldsPath(db, parentList, known, stable.Keys, unstable.Keys, path);
      }
    }

    /** The queue holds collected hashes, and every collected hash outside it has been expanded. */
    ghost predicate Pending(known: int, stable: set<Hash>, unstable: set<Hash>, que: seq<Hash>) {
      && (forall h :: h in que ==> h in stable + unstable)
      && (forall h :: h in stable + unstable && h !in que ==> ParentsCollected(db, known, stable, unstable, h))
    }

    lemma Shrinks(all: set<Hash>, a: set<Hash>, b: set<Hash>)
      requires a <= b <= all
      ensures a == b || all - b < all - a
    {
    }

    lemma PendingStep(known: int, s: set<Hash>, u: set<Hash>, que: seq<Hash>, s': set<Hash>, u': set<Hash>,
                      que': seq<Hash>)
      requires Pending(known, s, u, que) && que != [] && s <= s' && u <= u'
      requires ParentsCollected(db, known, s', u', que[0])
      requires Grown(s, u, que[1..], s', u', que')
      ensures Pending(known, s', u', que')
    {
      assert que == [que[0]] + que[1..];
      forall h | h in que' ensures h in s' + u' {
        if h in que[1..] { assert h in que; }
      }
      forall h | h in s' + u' && h !in que' ensures ParentsCollected(db, known, s', u', h) {
        if h != que[0] { assert h !in que; assert ParentsCollected(db, known, s, u, h); }
      }
    }

    /** Every hash the traversal can meet. */
    ghost function AllNamed(): set<Hash> {
      (set h | h in parentList) + (set h, p | h in db && p in db[h].parents :: p)
    }

    /** What is collected is a tip or reached, on its own side, with the unit the store has. */
    ghost predicate Sound(known: int, stable: map<Hash, Unit>, unstable: map<Hash, Unit>) {
      && (forall t :: t in parentList ==> t in unstable)
      && (forall h :: h in stable ==>
            stable[h] == GetUnit(db, h) && stable[h].isStable && Reached(db, parentList, known, h))
      && (forall h :: h in unstable ==> unstable[h] == GetUnit(db, h))
      && (forall h :: h in unstable ==> h in parentList || (!unstable[h].isStable && Reached(db, parentList, known, h)))
    }

    method Seed() returns (unstable: map<Hash, Unit>, que: seq<Hash>)
      ensures forall h :: h in unstable <==> h in parentList
      ensures forall h :: h in que <==> h in parentList
      ensures forall h :: h in unstable ==> unstable[h] == GetUnit(db, h)
    {
      unstable, que := map[], [];
      for i := 0 to |parentList|
        invariant forall h :: h in unstable <==> h in parentList[..i]
        invariant forall h :: h in que <==> h in parentList[..i]
        invariant forall h :: h in unstable ==> unstable[h] == GetUnit(db, h)
      {
        var val := parentList[i];
        if val !in unstable {
          unstable, que := unstable[val := GetUnit(db, val)], que + [val];
        }
        assert parentList[..i + 1] == parentList[..i] + [val];
      }
      assert parentList[..|parentList|] == parentList;
    }

    /** From (s, u, q) to (s', u', q') the collections only gained hashes that the traversal can meet,
        and exactly the gained ones were appended to the queue. */
    ghost predicate Grown(s: set<Hash>, u: set<Hash>, q: seq<Hash>, s': set<Hash>, u': set<Hash>, q': seq<Hash>) {
      && s <= s' <= s + AllNamed() && u <= u' <= u + AllNamed()
      && q <= q'
      && (forall k :: k in q' ==> k in q || k in s' || k in u')
      && (forall k :: k in s' ==> k in s || k in q')
      && (forall k :: k in u' ==> k in u || k in q')
      && (s' == s && u' == u ==> q' == q)
    }

    lemma GrownTransitive(
      s: set<Hash>, u: set<Hash>, q: seq<Hash>, s': set<Hash>, u': set<Hash>, q': seq<Hash>,
      s'': set<Hash>, u'': set<Hash>, q'': seq<Hash>)
      requires Grown(s, u, q, s', u', q') && Grown(s', u', q', s'', u'', q'')
      ensures Grown(s, u, q, s'', u'', q'')
    {
    }

    /** The parent p is collected on its side, if the traversal is to enter it. */
    ghost predicate Collected(known: int, stable: set<Hash>, unstable: set<Hash>, p: Hash) {
      Admitted(db, known, p) ==> p in (if GetUnit(db, p).isStable then stable else unstable)
    }

    /** One round of the traversal: collect and enqueue the admitted parents of h. */
    method Expand(known: int, h: Hash, s: map<Hash, Unit>, u: map<Hash, Unit>, q: seq<Hash>)
      returns (stable: map<Hash, Unit>, unstable: map<Hash, Unit>, que: seq<Hash>)
      requires Sound(known, s, u) && (h in s || h in u)
      ensures Sound(known, stable, unstable)
      ensures Grown(s.Keys, u.Keys, q, stable.Keys, unstable.Keys, que)
      ensures ParentsCollected(db, known, stable.Keys, unstable.Keys, h)
    {
      stable, unstable, que := s, u, q;
      var ps := GetUnit(db, h).parents;
      for i := 0 to |ps|
        invariant Sound(known, stable, unstable)
        invariant Grown(s.Keys, u.Keys, q, stable.Keys, unstable.Keys, que)
        invariant CollectedUpTo(known, stable.Keys, unstable.Keys, ps, i)
      {
        ghost var s0, u0, q0 := stable, unstable, que;
        stable, unstable, que := Visit(known, h, ps[i], stable, unstable, que);
        GrownTransitive(s.Keys, u.Keys, q, s0.Keys, u0.Keys, q0, stable.Keys, unstable.Keys, que);
        CollectedOneMore(known, s0.Keys, u0.Keys, stable.Keys, unstable.Keys, ps, i);
      }
      AllParentsCollected(known, h, stable.Keys, unstable.Keys);
    }

    ghost predicate CollectedUpTo(known: int, stable: set<Hash>, unstable: set<Hash>, ps: seq<Hash>, i: nat) {
      i <= |ps| && forall j :: 0 <= j < i ==> Collected(known, stable, unstable, ps[j])
    }

    lemma CollectedOneMore(
      known: int, s: set<Hash>, u: set<Hash>, s': set<Hash>, u': set<Hash>, ps: seq<Hash>, i: nat)
      requires CollectedUpTo(known, s, u, ps, i) && i < |ps|
      requires s <= s' && u <= u' && Collected(known, s', u', ps[i])
      ensures CollectedUpTo(known, s', u', ps, i + 1)
    {
    }

    lemma AllParentsCollected(known: int, h: Hash, stable: set<Hash>, unstable: set<Hash>)
      requires CollectedUpTo(known, stable, unstable, GetUnit(db, h).parents, |GetUnit(db, h).parents|)
      ensures ParentsCollected(db, known, stable, unstable, h)
    {
    }

    method Visit(known: int, ghost h: Hash, val: Hash, s: map<Hash, Unit>, u: map<Hash, Unit>, q: seq<Hash>)
      returns (stable: map<Hash, Unit>, unstable: map<Hash, Unit>, que: seq<Hash>)
      requires Sound(known, s, u) && (h in s || h in u) && val in GetUnit(db, h).parents
      ensures Sound(known, stable, unstable)
      ensures Grown(s.Keys, u.Keys, q, stable.Keys, unstable.Keys, que)
      ensures Collected(known, stable.Keys, unstable.Keys, val)
    {
      stable, unstable, que := s, u, q;
      var unit := GetUnit(db, val);
      assert h in db && val in db[h].parents;
      if Admitted(db, known, val) {
        assert Reached(db, parentList, known, val) by {
          if h in parentList { TipChildReached(db, parentList, known, h, val); }
          else { ReachedExtends(db, parentList, known, h, val); }
        }
      }
      if unit.isStable {
        if val !in stable && unit.mci > known {
          stable, que := stable[val := unit], que + [val];
          assert val in stable.Keys;
        }
      } else {
        if val !in unstable {
          unstable, que := unstable[val := unit], que + [val];
          assert val in unstable.Keys;
        }
      }
    }

    /** The values of a map, in some order of level; ks names their keys. */
    method SortedValues(m: map<Hash, Unit>) returns (us: seq<Unit>, ghost ks: seq<Hash>)
      requires forall h :: h in m ==> m[h] == GetUnit(db, h)
      ensures Lists(db, ks, us) && forall h :: h in ks <==> h in m
    {
      us, ks := [], [];
      var rest := m.Keys;
      while rest != {}
        invariant rest <= m.Keys && Lists(db, ks, us)
        invariant forall h :: h in ks <==> h in m && h !in rest
        decreases rest
      {
        var h :| h in rest;
        us, ks := Insert(us, m[h], ks, h);
        rest := rest - {h};
      }
    }

    method Insert(us: seq<Unit>, u: Unit, ghost ks: seq<Hash>, ghost h: Hash)
      returns (us': seq<Unit>, ghost ks': seq<Hash>)
      requires Lists(db, ks, us) && h !in ks && u == GetUnit(db, h)
      ensures Lists(db, ks', us') && forall k :: k in ks' <==> k in ks || k == h
    {
      var i := |us|;
      while i > 0 && us[i - 1].level > u.level
        invariant 0 <= i <= |us|
        invariant forall j :: i <= j < |us| ==> us[j].level > u.level
      {
        i := i - 1;
      }
      us' := us[..i] + [u] + us[i..];
      ks' := ks[..i] + [h] + ks[i..];
      InsertedKeys(ks, h, i);
      InsertedLists(us, u, ks, h, i);
    }

    lemma InsertedLists(us: seq<Unit>, u: Unit, ks: seq<Hash>, h: Hash, i: nat)
      requires |ks| == |us| && SortedByLevel(us) && i <= |us| && u == GetUnit(db, h)
      requires forall j :: 0 <= j < |ks| ==> us[j] == GetUnit(db, ks[j])
      requires (forall j :: i <= j < |us| ==> us[j].level > u.level) && (i > 0 ==> us[i - 1].level <= u.level)
      ensures var us', ks' := us[..i] + [u] + us[i..], ks[..i] + [h] + ks[i..];
              && SortedByLevel(us') && |us'| == |ks'|
              && forall j :: 0 <= j < |ks'| ==> us'[j] == GetUnit(db, ks'[j])
    {
      var us', ks' := us[..i] + [u] + us[i..], ks[..i] + [h] + ks[i..];
      forall j, k | 0 <= j < k < |us'| ensures us'[j].level <= us'[k].level {
        assert j < i ==> us'[j] == us[j];
        assert k > i ==> us'[k] == us[k - 1];
        assert j > i ==> us'[j] == us[j - 1];
        assert k < i ==> us'[k] == us[k];
      }
    }

    lemma InsertedKeys(ks: seq<Hash>, h: Hash, i: nat)
      requires i <= |ks| && NoDuplicates(ks) && h !in ks
      ensures var ks' := ks[..i] + [h] + ks[i..];
              NoDuplicates(ks') && forall k :: k in ks' <==> k in ks || k == h
    {
    }

    method GetMissingUnits(lastStable: int, known: int)
      returns (stable: seq<Unit>, unstable: seq<Unit>, ghost sk: seq<Hash>, ghost uk: seq<Hash>)
      ensures known > lastStable ==> stable == [] && unstable == [] && sk == [] && uk == []
      ensures known <= lastStable ==> Selection(db, parentList, known, sk, stable, uk, unstable)
    {
      if known > lastStable {
        return [], [], [], [];
      }
      var stableMap, unstableMap := SelectMissing(known);
      stable, sk := SortedValues(stableMap);
      unstable, uk := SortedValues(unstableMap);
    }
  }

  /** Answering a sync request: the missing units are sent one by one, until a transmission fails
      (after `capacity` sends).  The sent hashes are a prefix of `hashes`, the whole missing set;
      whatever prefix arrives, no unit arrives before its parents. */
  method PickDataFromDag(db: Store, cfg: Config, tips: seq<Hash>, lastStable: int, known: int, capacity: nat)
    returns (sent: seq<Unit>, ghost hashes: seq<Hash>)
    requires Syncable(db, cfg, tips) && AllCovered(db, tips)
    ensures known > lastStable ==> hashes == []
    ensures known <= lastStable ==>
      forall h :: h in hashes <==> h in db && (h in tips || !db[h].isStable || db[h].mci > known)
    ensures |sent| == (if capacity < |hashes| then capacity else |hashes|)
    ensures forall i :: 0 <= i < |sent| ==> sent[i] == GetUnit(db, hashes[i])
    ensures NoDuplicates(hashes) && ParentsFirst(db, known, hashes)
  {
    var stable, unstable, sk, uk := MissingUnits(db, cfg, tips, lastStable, known);
    hashes := sk + uk;
    if known <= lastStable {
      SelectionIsMissing(db, cfg, tips, known, sk, stable, uk, unstable);
    }
    sent := SendUntil(stable + unstable, capacity);
  }

  method MissingUnits(db: Store, cfg: Config, tips: seq<Hash>, lastStable: int, known: int)
    returns (stable: seq<Unit>, unstable: seq<Unit>, ghost sk: seq<Hash>, ghost uk: seq<Hash>)
    requires forall t :: t in tips ==> t in db && db[t].hash == t
    ensures known > lastStable ==> stable == [] && unstable == [] && sk == [] && uk == []
    ensures known <= lastStable ==> Selection(db, tips, known, sk, stable, uk, unstable)
  {
    var gig := new GraphInfoGetter(db, tips, cfg);
    stable, unstable, sk, uk := gig.GetMissingUnits(lastStable, known);
  }

  lemma ListsConcatenate(db: Store, sk: seq<Hash>, stable: seq<Unit>, uk: seq<Hash>, unstable: seq<Unit>)
    requires Lists(db, sk, stable) && Lists(db, uk, unstable)
    ensures |sk + uk| == |stable + unstable|
    ensures forall i :: 0 <= i < |sk + uk| ==> (stable + unstable)[i] == GetUnit(db, (sk + uk)[i])
  {
  }

  lemma SelectionIsMissing(
    db: Store, cfg: Config, tips: seq<Hash>, known: int,
    sk: seq<Hash>, stable: seq<Unit>, uk: seq<Hash>, unstable: seq<Unit>)
    requires Syncable(db, cfg, tips) && Selection(db, tips, known, sk, stable, uk, unstable)
    requires AllCovered(db, tips)
    ensures |sk + uk| == |stable + unstable|
    ensures forall i :: 0 <= i < |sk + uk| ==> (stable + unstable)[i] == GetUnit(db, (sk + uk)[i])
    ensures forall h :: h in sk + uk <==> h in db && (h in tips || !db[h].isStable || db[h].mci > known)
    ensures NoDuplicates(sk + uk) && ParentsFirst(db, known, sk + uk)
  {
    ListsConcatenate(db, sk, stable, uk, unstable);
    SentOnce(db, cfg, tips, known, sk, stable, uk, unstable);
    SendOrderIsTopological(db, cfg, tips, known, sk, stable, uk, unstable);
    forall h ensures h in sk + uk <==> h in db && (h in tips || !db[h].isStable || db[h].mci > known) {
      SentIsExactlyMissing(db, cfg, tips, known, sk, stable, uk, unstable, h);
    }
  }

  /** Send in order; the transmission after `capacity` sends fails and ends the loop. */
  method SendUntil(units: seq<Unit>, capacity: nat) returns (sent: seq<Unit>)
    ensures sent == if capacity < |units| then units[..capacity] else units
  {
    sent := [];
    for i := 0 to |units|
      invariant i <= capacity && sent == units[..i]
    {
      if i == capacity {
        break;
      }
      sent := sent + [units[i]];
    }
  }

  /** After any run from genesis, a sync of all the tips reaches every unit of the store: what is not
      sent is stable and already known to the peer. */
  lemma SyncMissesNothing(
    db0: Store, cfg: Config, es: seq<Event>, db: Store, tips: seq<Hash>, known: int,
    sk: seq<Hash>, stable: seq<Unit>, uk: seq<Hash>, unstable: seq<Unit>, h: Hash)
    requires GenesisStore(db0, cfg) && Inv(db0, cfg) && Run(db0, cfg, es, db) && StableIsClosed(db)
    requires forall t :: t in tips <==> t in Tips.TipsAfter({cfg.genesis}, es)
    requires Selection(db, tips, known, sk, stable, uk, unstable)
    ensures ParentsFirst(db, known, sk + uk) && NoDuplicates(sk + uk)
    ensures h in db && h !in sk + uk ==> db[h].isStable && db[h].mci <= known
  {
    Tips.GenesisTips(db0, cfg);
    Tips.RunKeepsTips(db0, cfg, es, db, {cfg.genesis});
    Tips.TipsMakeSyncable(db, cfg, Tips.TipsAfter({cfg.genesis}, es), tips);
    SentOnce(db, cfg, tips, known, sk, stable, uk, unstable);
    SendOrderIsTopological(db, cfg, tips, known, sk, stable, uk, unstable);
    SentIsExactlyMissing(db, cfg, tips, known, sk, stable, uk, unstable, h);
  }
}
