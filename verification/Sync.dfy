/** What a peer is missing: the breadth-first selection of dag/graph_info.go, by its meaning, and the
    order in which node/node.go sends it. */
module Sync {
  import opened Common
  import opened Dag

  /** The traversal follows every unstable unit and every stable one above the known index. */
  predicate Admitted(db: Store, known: int, h: Hash) {
    var u := GetUnit(db, h);
    u.isStable ==> u.mci > known
  }

  /** A path of parent links that starts at a tip and only enters admitted units. */
  ghost predicate AdmittedPath(db: Store, tips: seq<Hash>, known: int, path: seq<Hash>) {
    && IsPath(db, path) && path[0] in tips
    && forall i :: 1 <= i < |path| ==> Admitted(db, known, path[i])
  }

  /** h is entered by some admitted path. */
  ghost predicate Reached(db: Store, tips: seq<Hash>, known: int, h: Hash) {
    exists path :: AdmittedPath(db, tips, known, path) && |path| >= 2 && path[|path| - 1] == h
  }

  /** h is a proper ancestor of a tip. */
  ghost predicate Ancestor(db: Store, tips: seq<Hash>, h: Hash) {
    exists path :: IsPath(db, path) && path[0] in tips && |path| >= 2 && path[|path| - 1] == h
  }

  lemma PathExtends(db: Store, path: seq<Hash>, p: Hash)
    requires IsPath(db, path) && p in GetUnit(db, path[|path| - 1]).parents
    ensures IsPath(db, path + [p])
  {
  }

  lemma TipChildReached(db: Store, tips: seq<Hash>, known: int, t: Hash, p: Hash)
    requires t in tips && p in GetUnit(db, t).parents && Admitted(db, known, p)
    ensures Reached(db, tips, known, p)
  {
    assert AdmittedPath(db, tips, known, [t, p]);
  }

  lemma ReachedExtends(db: Store, tips: seq<Hash>, known: int, h: Hash, p: Hash)
    requires Reached(db, tips, known, h) && p in GetUnit(db, h).parents && Admitted(db, known, p)
    ensures Reached(db, tips, known, p)
  {
    var path :| AdmittedPath(db, tips, known, path) && |path| >= 2 && path[|path| - 1] == h;
    PathExtends(db, path, p);
    assert AdmittedPath(db, tips, known, path + [p]);
  }

  /** The parents of h that the traversal must enter are collected on their side. */
  ghost predicate ParentsCollected(db: Store, known: int, stable: set<Hash>, unstable: set<Hash>, h: Hash) {
    forall p :: p in GetUnit(db, h).parents && Admitted(db, known, p) ==>
      p in (if GetUnit(db, p).isStable then stable else unstable)
  }

  /** Collections that hold the tips and are closed under admitted parents hold all that is reached. */
  lemma {:induction false} ClosedHoldsPath(
    db: Store, tips: seq<Hash>, known: int, stable: set<Hash>, unstable: set<Hash>, path: seq<Hash>)
    requires forall t :: t in tips ==> t in unstable
    requires forall h :: h in stable + unstable ==> ParentsCollected(db, known, stable, unstable, h)
    requires AdmittedPath(db, tips, known, path)
    ensures path[|path| - 1] in stable + unstable
    ensures |path| >= 2 ==> path[|path| - 1] in (if GetUnit(db, path[|path| - 1]).isStable then stable else unstable)
    decreases |path|
  {
    if |path| >= 2 {
      var init := path[..|path| - 1];
      ClosedHoldsPath(db, tips, known, stable, unstable, init);
      assert ParentsCollected(db, known, stable, unstable, path[|path| - 2]);
      assert path[(|path| - 2) + 1] in GetUnit(db, path[|path| - 2]).parents;
    }
  }

  // ----- under the assumptions on stability

  /** Ancestors of a stable unit are stable, with an index no higher. */
  ghost predicate StableIsClosed(db: Store) {
    forall h, p :: h in db && db[h].isStable && p in db[h].parents && p in db ==>
      db[p].isStable && db[p].mci <= db[h].mci
  }

  /** Every parent link leads to a stored unit. */
  ghost predicate ParentsStored(db: Store) {
    forall h, p :: h in db && p in db[h].parents ==> p in db
  }

  /** Whoever admits the end of an ancestor path admits all of it. */
  lemma {:induction false} PathToAdmittedIsAdmitted(db: Store, tips: seq<Hash>, known: int, path: seq<Hash>)
    requires StableIsClosed(db) && ParentsStored(db)
    requires IsPath(db, path) && path[0] in tips && path[0] in db
    requires |path| >= 2 ==> Admitted(db, known, path[|path| - 1])
    ensures AdmittedPath(db, tips, known, path)
    decreases |path|
  {
    if |path| >= 2 {
      var init, n := path[..|path| - 1], |path|;
      PathStaysStored(db, path, n - 2);
      PathStaysStored(db, path, n - 1);
      assert path[(n - 2) + 1] in GetUnit(db, path[n - 2]).parents;
      assert Admitted(db, known, path[n - 2]) by {
        if db[path[n - 2]].isStable { assert db[path[n - 1]].mci <= db[path[n - 2]].mci; }
      }
      PathToAdmittedIsAdmitted(db, tips, known, init);
    }
  }

  lemma {:induction false} PathStaysStored(db: Store, path: seq<Hash>, i: nat)
    requires ParentsStored(db) && IsPath(db, path) && path[0] in db && i < |path|
    ensures path[i] in db
  {
    if i > 0 {
      PathStaysStored(db, path, i - 1);
      assert path[(i - 1) + 1] in GetUnit(db, path[i - 1]).parents;
    }
  }

  /** The traversal enters exactly the admitted ancestors of the tips. */
  lemma ReachedIsAdmittedAncestor(db: Store, tips: seq<Hash>, known: int, h: Hash)
    requires StableIsClosed(db) && ParentsStored(db)
    requires forall t :: t in tips ==> t in db
    ensures Reached(db, tips, known, h) <==> Ancestor(db, tips, h) && Admitted(db, known, h)
  {
    if Reached(db, tips, known, h) {
      var path :| AdmittedPath(db, tips, known, path) && |path| >= 2 && path[|path| - 1] == h;
      assert IsPath(db, path);
    }
    if Ancestor(db, tips, h) && Admitted(db, known, h) {
      var path :| IsPath(db, path) && path[0] in tips && |path| >= 2 && path[|path| - 1] == h;
      PathToAdmittedIsAdmitted(db, tips, known, path);
      assert AdmittedPath(db, tips, known, path);
    }
  }

  // ----- the lists that are sent

  ghost predicate SortedByLevel(us: seq<Unit>) {
    forall i, j :: 0 <= i < j < |us| ==> us[i].level <= us[j].level
  }

  /** us lists the units of the hashes ks, each once, in order of level. */
  ghost predicate Lists(db: Store, ks: seq<Hash>, us: seq<Unit>) {
    && |ks| == |us| && NoDuplicates(ks) && SortedByLevel(us)
    && forall i :: 0 <= i < |ks| ==> us[i] == GetUnit(db, ks[i])
  }

  /** The two lists hold what the traversal selects: the tips with the unstable units entered, and
      the stable units entered. */
  ghost predicate Selection(
    db: Store, tips: seq<Hash>, known: int, sk: seq<Hash>, stable: seq<Unit>, uk: seq<Hash>, unstable: seq<Unit>) {
    && Lists(db, sk, stable) && Lists(db, uk, unstable)
    && (forall h :: h in sk <==> Reached(db, tips, known, h) && GetUnit(db, h).isStable)
    && (forall h :: h in uk <==> h in tips || (Reached(db, tips, known, h) && !GetUnit(db, h).isStable))
  }

  /** No tip is an ancestor of a tip. */
  ghost predicate TipsAreChildless(db: Store, tips: seq<Hash>) {
    forall t, h :: t in tips && h in db ==> t !in db[h].parents
  }

  /** The assumptions under which a sync is complete and ordered. */
  ghost predicate Syncable(db: Store, cfg: Config, tips: seq<Hash>) {
    && Inv(db, cfg) && StableIsClosed(db) && TipsAreChildless(db, tips)
    && forall t :: t in tips ==> t in db
  }

  /** Every stored unit is a tip or an ancestor of one. */
  ghost predicate AllCovered(db: Store, tips: seq<Hash>) {
    forall k :: k in db ==> k in tips || Ancestor(db, tips, k)
  }

  lemma InvStoresParents(db: Store, cfg: Config)
    requires Inv(db, cfg)
    ensures ParentsStored(db)
  {
  }

  /** Everything sent is stored and nothing is sent twice. */
  lemma SentOnce(
    db: Store, cfg: Config, tips: seq<Hash>, known: int,
    sk: seq<Hash>, stable: seq<Unit>, uk: seq<Hash>, unstable: seq<Unit>)
    requires Syncable(db, cfg, tips) && Selection(db, tips, known, sk, stable, uk, unstable)
    ensures NoDuplicates(sk + uk) && forall h :: h in sk + uk ==> h in db
  {
    InvStoresParents(db, cfg);
    forall h | h in sk + uk ensures h in db && (h in sk ==> h !in uk) {
      if Reached(db, tips, known, h) { ReachedIsStored(db, tips, known, h); }
    }
    AppendNoDuplicates(sk, uk);
  }

  /** A reached unit is stored, and is the parent of a stored one: it is no tip. */
  lemma ReachedIsStored(db: Store, tips: seq<Hash>, known: int, h: Hash)
    requires ParentsStored(db) && TipsAreChildless(db, tips) && Reached(db, tips, known, h)
    requires forall t :: t in tips ==> t in db
    ensures h in db && h !in tips
  {
    var path :| AdmittedPath(db, tips, known, path) && |path| >= 2 && path[|path| - 1] == h;
    PathStaysStored(db, path, |path| - 1);
    PathStaysStored(db, path, |path| - 2);
    assert path[(|path| - 2) + 1] in GetUnit(db, path[|path| - 2]).parents;
  }

  /** The peer needs no unit it has not got: each parent of a sent unit was sent before it, or is
      stable at an index the peer already knows. */
  ghost predicate ParentsFirst(db: Store, known: int, sent: seq<Hash>) {
    forall i, p :: 0 <= i < |sent| && p in GetUnit(db, sent[i]).parents ==>
      p in sent[..i] || (p in db && db[p].isStable && db[p].mci <= known)
  }

  lemma SendOrderIsTopological(
    db: Store, cfg: Config, tips: seq<Hash>, known: int,
    sk: seq<Hash>, stable: seq<Unit>, uk: seq<Hash>, unstable: seq<Unit>)
    requires Syncable(db, cfg, tips) && Selection(db, tips, known, sk, stable, uk, unstable)
    ensures ParentsFirst(db, known, sk + uk)
  {
    SentOnce(db, cfg, tips, known, sk, stable, uk, unstable);
    InvStoresParents(db, cfg);
    forall i, p | 0 <= i < |sk + uk| && p in GetUnit(db, (sk + uk)[i]).parents
      ensures p in (sk + uk)[..i] || (p in db && db[p].isStable && db[p].mci <= known)
    {
      var h := (sk + uk)[i];
      assert h in sk + uk && WellBuilt(db, cfg, db[h]);
      if Admitted(db, known, p) {
        if h in tips { TipChildReached(db, tips, known, h, p); }
        else { ReachedExtends(db, tips, known, h, p); }
        ParentComesFirst(db, sk, stable, uk, unstable, i, p);
      }
    }
  }

  /** A selected parent stands strictly before its child in the concatenated lists. */
  lemma ParentComesFirst(db: Store, sk: seq<Hash>, stable: seq<Unit>, uk: seq<Hash>, unstable: seq<Unit>, i: nat,
                         p: Hash)
    requires Lists(db, sk, stable) && Lists(db, uk, unstable) && i < |sk + uk|
    requires GetUnit(db, p).level < GetUnit(db, (sk + uk)[i]).level
    requires p in (if GetUnit(db, p).isStable then sk else uk)
    requires (sk + uk)[i] in sk && GetUnit(db, (sk + uk)[i]).isStable ==> GetUnit(db, p).isStable
    requires i < |sk| ==> GetUnit(db, sk[i]).isStable
    ensures p in (sk + uk)[..i]
  {
    if GetUnit(db, p).isStable {
      var j :| 0 <= j < |sk| && sk[j] == p;
      assert (sk + uk)[..i][j] == p;
    } else {
      var j :| 0 <= j < |uk| && uk[j] == p;
      assert (sk + uk)[|sk| + j] == p;
      assert (sk + uk)[..i][|sk| + j] == p;
    }
  }

  lemma DisjointParts(a: seq<Hash>, b: seq<Hash>, h: Hash)
    requires NoDuplicates(a + b)
    ensures h in a ==> h !in b
  {
    forall i, j | 0 <= i < |a| && 0 <= j < |b| ensures a[i] != b[j] {
      assert (a + b)[i] == a[i] && (a + b)[|a| + j] == b[j];
    }
  }

  /** What is sent, by its meaning: the tips, the unstable units, and the stable units above the
      index the peer knows, provided every stored unit is a tip or the ancestor of one. */
  lemma SentIsExactlyMissing(
    db: Store, cfg: Config, tips: seq<Hash>, known: int,
    sk: seq<Hash>, stable: seq<Unit>, uk: seq<Hash>, unstable: seq<Unit>, h: Hash)
    requires Syncable(db, cfg, tips) && Selection(db, tips, known, sk, stable, uk, unstable)
    requires AllCovered(db, tips)
    ensures h in sk + uk <==> h in db && (h in tips || !db[h].isStable || db[h].mci > known)
    ensures h in sk <==> h in db && h !in tips && db[h].isStable && db[h].mci > known
  {
    SentOnce(db, cfg, tips, known, sk, stable, uk, unstable);
    InvStoresParents(db, cfg);
    ReachedIsAdmittedAncestor(db, tips, known, h);
    assert h in sk + uk <==> h in sk || h in uk;
    DisjointParts(sk, uk, h);
  }
}
