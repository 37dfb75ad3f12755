/** The set of units without children, kept incrementally (dag/memdb/parent_memdb.go). */
module Tips {
  import opened Common
  import opened Dag
  import Sync

  /** The stored units that no stored unit names as a parent. */
  ghost function Childless(db: Store): set<Hash> {
    set h | h in db && forall k :: k in db ==> h !in db[k].parents
  }

  /** The effect of saving a unit on the tip set: insert it, then remove each parent. */
  function SaveTip(tips: set<Hash>, h: Hash, parents: seq<Hash>): set<Hash> {
    (tips + {h}) - set p | p in parents
  }

  function TipsAfter(tips: set<Hash>, es: seq<Event>): set<Hash>
    decreases |es|
  {
    if es == [] then tips
    else TipsAfter(match es[0]
                   case Save(u) => SaveTip(tips, u.hash, u.parents)
                   case Restamp(_, _, _) => tips, es[1..])
  }

  /** h is reached from a tip by parent links, in zero or more steps. */
  ghost predicate Covered(db: Store, tips: set<Hash>, h: Hash) {
    exists path :: IsPath(db, path) && path[0] in tips && path[|path| - 1] == h
  }

  /** The tip set is exact and every stored unit lies under some tip. */
  ghost predicate TipInv(db: Store, tips: set<Hash>) {
    && tips == Childless(db)
    && forall h :: h in db ==> Covered(db, tips, h)
  }

  /** Nothing stored loses or changes its parents. */
  ghost predicate KeepsParents(db: Store, db': Store) {
    forall h :: h in db ==> h in db' && db'[h].parents == db[h].parents
  }

  /** Parent links of stored units survive. */
  lemma PathFrame(db: Store, db': Store, path: seq<Hash>)
    requires KeepsParents(db, db') && IsPath(db, path)
    ensures IsPath(db', path)
  {
    forall i | 0 <= i < |path| - 1 ensures path[i + 1] in GetUnit(db', path[i]).parents {
      assert path[i + 1] in GetUnit(db, path[i]).parents;
    }
  }

  /** Saving a unit after its parents turns exactly its parents and itself over. */
  lemma SaveTipIsChildless(db: Store, u: Unit)
    requires Sync.ParentsStored(db) && u.hash !in db && forall p :: p in u.parents ==> p in db
    ensures SaveTip(Childless(db), u.hash, u.parents) == Childless(db[u.hash := u])
  {
    var db' := db[u.hash := u];
    forall h ensures h in SaveTip(Childless(db), u.hash, u.parents) <==> h in Childless(db') {
      if h in db && h !in u.parents {
        assert (forall k :: k in db ==> h !in db[k].parents) <==> (forall k :: k in db' ==> h !in db'[k].parents) by {
          assert forall k :: k in db ==> db'[k] == db[k];
        }
      }
      if h in u.parents { assert u.hash in db' && h in db'[u.hash].parents; }
    }
  }

  /** What a path reached is reached from the new unit, if the path began at one of its parents. */
  lemma SaveCovers(db: Store, u: Unit, tips: set<Hash>, h: Hash)
    requires u.hash !in db && Covered(db, tips, h) && u.hash !in u.parents
    ensures Covered(db[u.hash := u], SaveTip(tips, u.hash, u.parents), h)
  {
    var db' := db[u.hash := u];
    var path :| IsPath(db, path) && path[0] in tips && path[|path| - 1] == h;
    PathFrame(db, db', path);
    if path[0] in u.parents {
      PathFromNew(db', u, path);
      var longer := [u.hash] + path;
      assert longer[|longer| - 1] == h;
    }
  }

  lemma PathFromNew(db: Store, u: Unit, path: seq<Hash>)
    requires u.hash in db && db[u.hash] == u && IsPath(db, path) && path[0] in u.parents
    ensures IsPath(db, [u.hash] + path)
  {
    var longer := [u.hash] + path;
    forall i | 0 <= i < |longer| - 1 ensures longer[i + 1] in GetUnit(db, longer[i]).parents {
      assert i > 0 ==> path[(i - 1) + 1] in GetUnit(db, path[i - 1]).parents;
    }
  }

  lemma SaveKeepsTips(db: Store, u: Unit, tips: set<Hash>)
    requires Sync.ParentsStored(db) && u.hash !in db && (forall p :: p in u.parents ==> p in db) && TipInv(db, tips)
    ensures TipInv(db[u.hash := u], SaveTip(tips, u.hash, u.parents))
  {
    var db', tips' := db[u.hash := u], SaveTip(tips, u.hash, u.parents);
    SaveTipIsChildless(db, u);
    forall h | h in db' ensures Covered(db', tips', h) {
      if h == u.hash {
        assert IsPath(db', [h]);
      } else {
        SaveCovers(db, u, tips, h);
      }
    }
  }

  lemma SaveKeepsTipInv(db: Store, cfg: Config, u: Unit, tips: set<Hash>)
    requires Inv(db, cfg) && Enabled(db, cfg, Save(u)) && TipInv(db, tips)
    ensures TipInv(Apply(db, Save(u)), SaveTip(tips, u.hash, u.parents))
  {
    Sync.InvStoresParents(db, cfg);
    SaveKeepsTips(db, u, tips);
  }

  lemma SameParentsKeepTips(db: Store, db': Store, tips: set<Hash>)
    requires db'.Keys == db.Keys && KeepsParents(db, db') && TipInv(db, tips)
    ensures TipInv(db', tips)
  {
    assert Childless(db) == Childless(db');
    forall h | h in db' ensures Covered(db', tips, h) {
      assert Covered(db, tips, h);
      var path :| IsPath(db, path) && path[0] in tips && path[|path| - 1] == h;
      PathFrame(db, db', path);
    }
  }

  lemma RestampKeepsTipInv(db: Store, cfg: Config, e: Event, tips: set<Hash>)
    requires Inv(db, cfg) && e.Restamp? && Enabled(db, cfg, e) && TipInv(db, tips)
    ensures TipInv(Apply(db, e), tips)
  {
    SameParentsKeepTips(db, Apply(db, e), tips);
  }

  /** Over every run that saves each unit once, after its parents, the incremental tip set is exactly
      the set of childless units, and every saved unit is one of them or an ancestor of one. */
  lemma {:induction false} RunKeepsTips(db0: Store, cfg: Config, es: seq<Event>, db: Store, tips0: set<Hash>)
    requires Inv(db0, cfg) && TipInv(db0, tips0) && Run(db0, cfg, es, db)
    ensures Inv(db, cfg) && TipInv(db, TipsAfter(tips0, es))
    decreases |es|
  {
    if es != [] {
      StepKeepsInv(db0, cfg, es[0]);
      match es[0] {
        case Save(u) =>
          SaveKeepsTipInv(db0, cfg, u, tips0);
          RunKeepsTips(Apply(db0, es[0]), cfg, es[1..], db, SaveTip(tips0, u.hash, u.parents));
        case Restamp(_, _, _) =>
          RestampKeepsTipInv(db0, cfg, es[0], tips0);
          RunKeepsTips(Apply(db0, es[0]), cfg, es[1..], db, tips0);
      }
    }
  }

  lemma GenesisTips(db: Store, cfg: Config)
    requires GenesisStore(db, cfg)
    ensures Inv(db, cfg) && TipInv(db, {cfg.genesis})
  {
    GenesisInv(db, cfg);
    forall h | h in db ensures h == cfg.genesis { assert h in db.Keys; }
    assert Childless(db) == {cfg.genesis};
    assert IsPath(db, [cfg.genesis]);
  }

  /** A listing of an exact tip set is what a complete and ordered sync needs. */
  lemma TipsMakeSyncable(db: Store, cfg: Config, tips: set<Hash>, list: seq<Hash>)
    requires Inv(db, cfg) && TipInv(db, tips) && Sync.StableIsClosed(db)
    requires forall h :: h in list <==> h in tips
    ensures Sync.Syncable(db, cfg, list)
    ensures Sync.AllCovered(db, list)
  {
    forall k | k in db ensures k in list || Sync.Ancestor(db, list, k) {
      var path :| IsPath(db, path) && path[0] in tips && path[|path| - 1] == k;
      assert |path| == 1 || |path| >= 2;
    }
  }

  /** The tip store: the units, the stored list of tips and its copy in memory. */
  class ParentMemDB {
    var units: Store
    var stored: set<Hash>
    var parentSet: set<Hash>

    constructor (genesis: Unit)
      ensures units == map[genesis.hash := genesis]
      ensures stored == parentSet == {genesis.hash}
    {
      units, stored, parentSet := map[genesis.hash := genesis], {genesis.hash}, {genesis.hash};
    }

    /** Memory and database agree, and both are exact. */
    ghost predicate Valid(cfg: Config)
      reads this
    {
      Inv(units, cfg) && parentSet == stored && TipInv(units, parentSet)
    }

    method DeleteParent(parent: Hash)
      modifies this`stored, this`parentSet
      ensures stored == old(stored) - {parent} && parentSet == old(parentSet) - {parent}
    {
      stored := stored - {parent};
      parentSet := parentSet - {parent};
    }

    method SaveParent(parent: Hash)
      modifies this`stored, this`parentSet
      ensures stored == SaveTip(old(stored), parent, GetUnit(units, parent).parents)
      ensures parentSet == SaveTip(old(parentSet), parent, GetUnit(units, parent).parents)
    {
      stored := stored + {parent};
      parentSet := parentSet + {parent};
      var ps := GetUnit(units, parent).parents;
      for i := 0 to |ps|
        invariant stored == (old(stored) + {parent}) - set p | p in ps[..i]
        invariant parentSet == (old(parentSet) + {parent}) - set p | p in ps[..i]
      {
        DeleteParent(ps[i]);
        assert ps[..i + 1] == ps[..i] + [ps[i]];
      }
      assert ps[..|ps|] == ps;
    }

    /** A new unit is stored with its stability reset, then becomes a tip. */
    method UpdateMainChain(u: Unit, ghost cfg: Config)
      requires Valid(cfg) && u.hash !in units && WellBuilt(units, cfg, u)
      modifies this
      ensures Valid(cfg)
      ensures units == old(units)[u.hash := u.(isStable := false, mci := 0)]
      ensures parentSet == SaveTip(old(parentSet), u.hash, u.parents)
    {
      var v := u.(isStable := false, mci := 0);
      ghost var db := units;
      units := units[v.hash := v];
      SaveParent(v.hash);
      assert WellBuilt(db, cfg, v);
      StepKeepsInv(db, cfg, Save(v));
      SaveKeepsTipInv(db, cfg, v, old(parentSet));
    }

    /** The tips in some order; an empty memory is refilled from the stored list. */
    method GetParentsAsHash() returns (list: seq<Hash>)
      modifies this`parentSet
      ensures parentSet == if old(parentSet) == {} then stored else old(parentSet)
      ensures forall h :: h in list <==> h in parentSet
      ensures NoDuplicates(list)
    {
      if parentSet == {} {
        parentSet := parentSet + stored;
      }
      list := [];
      var rest := parentSet;
      while rest != {}
        invariant rest <= parentSet
        invariant forall h :: h in list <==> h in parentSet - rest
        invariant NoDuplicates(list)
        decreases rest
      {
        var h :| h in rest;
        assert h !in list;
        list, rest := list + [h], rest - {h};
      }
    }
  }
}
