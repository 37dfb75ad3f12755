/** The unit store and the metadata every new unit gets from it: best parent, level and
    witnessed level (dag/graph_info.go, core/types/unit.go). */
module Dag {
  import opened Common

  /** A 32-byte hash, read as a number.  Hashes are rendered with a fixed width, so the order of
      their hexadecimal strings is the order of the numbers. */
  type Hash = nat
  type Address = nat

  /** The fields of a stored unit that the graph code reads.  `key` is the content key whose string
      form breaks ties, `author` the first author's address. */
  datatype Unit = Unit(
    hash: Hash, key: nat, author: Address, parents: seq<Hash>, bestParent: Hash,
    level: int, witnessedLevel: int, isStable: bool, mci: int)

  type Store = map<Hash, Unit>

  const ZERO_UNIT := Unit(0, 0, 0, [], 0, 0, 0, false, 0)

  /** A lookup that misses yields the zero unit, the error being dropped by the callers. */
  function GetUnit(db: Store, h: Hash): Unit {
    if h in db then db[h] else ZERO_UNIT
  }

  /** The constants of the run: the genesis hash, the witness list, the size of a majority. */
  datatype Config = Config(genesis: Hash, witnesses: set<Address>, majority: nat)

  // ----- best parent

  /** u is preferred over v: higher witnessed level, then lower level, then smaller key. */
  predicate Better(u: Unit, v: Unit) {
    || u.witnessedLevel > v.witnessedLevel
    || (u.witnessedLevel == v.witnessedLevel && u.level < v.level)
    || (u.witnessedLevel == v.witnessedLevel && u.level == v.level && u.key < v.key)
  }

  /** b is a stored parent that no other parent beats. */
  ghost predicate IsBestParent(db: Store, parents: seq<Hash>, b: Hash) {
    && b in parents
    && forall p :: p in parents ==> !Better(GetUnit(db, p), GetUnit(db, b))
  }

  /** What no parent beats is the top of three orders: the highest witnessed level of all parents, then the
      lowest level, then the smallest key. */
  lemma BestParentIff(db: Store, parents: seq<Hash>, b: Hash)
    ensures IsBestParent(db, parents, b) <==> b in parents && forall p :: p in parents ==>
      var u, v := GetUnit(db, p), GetUnit(db, b);
      && u.witnessedLevel <= v.witnessedLevel
      && (u.witnessedLevel == v.witnessedLevel ==> v.level <= u.level)
      && (u.witnessedLevel == v.witnessedLevel && u.level == v.level ==> v.key <= u.key)
  {
    if IsBestParent(db, parents, b) {
      forall p | p in parents ensures !Better(GetUnit(db, p), GetUnit(db, b)) {
      }
    }
  }

  /** Different stored units have different content keys: no hash collision. */
  ghost predicate KeysDistinct(db: Store) {
    forall h, k :: h in db && k in db && h != k ==> db[h].key != db[k].key
  }

  /** The best parent depends on the set of parents only, not on the order of the list. */
  lemma BestParentIsOrderFree(db: Store, ps: seq<Hash>, qs: seq<Hash>, b: Hash, c: Hash)
    requires KeysDistinct(db)
    requires forall p :: p in ps <==> p in qs
    requires forall p :: p in ps ==> p in db
    requires IsBestParent(db, ps, b) && IsBestParent(db, qs, c)
    ensures b == c
  {
    assert b in ps && c in ps;
    assert !Better(GetUnit(db, b), GetUnit(db, c)) && !Better(GetUnit(db, c), GetUnit(db, b));
  }

  // ----- levels

  /** The level a unit with these parents gets: one more than the highest, and at least 1. */
  ghost predicate IsLevelOver(db: Store, parents: seq<Hash>, level: int) {
    && level >= 1
    && (forall p :: p in parents ==> GetUnit(db, p).level < level)
    && (level == 1 || exists p :: p in parents && GetUnit(db, p).level == level - 1)
  }

  // ----- the witness walk

  /** The best-parent chain of every stored unit descends to the genesis unit. */
  ghost predicate Chained(db: Store, cfg: Config) {
    && cfg.genesis in db
    && (forall h :: h in db ==> db[h].hash == h && db[h].level >= 0)
    && (forall h :: h in db && h != cfg.genesis ==>
          db[h].bestParent in db && db[db[h].bestParent].level < db[h].level)
  }

  /** The witness addresses known after passing unit u. */
  ghost function Seen(cfg: Config, u: Unit, seen: set<Address>): set<Address> {
    if u.author in cfg.witnesses then seen + {u.author} else seen
  }

  /** Walk down the best-parent chain from h, having met the witnesses in `seen`: the level of the
      unit at which the majority is complete, or 0 when the genesis unit comes first. */
  ghost function Walk(db: Store, cfg: Config, h: Hash, seen: set<Address>): int
    requires Chained(db, cfg) && h in db
    decreases db[h].level
  {
    var u := db[h];
    if u.author in cfg.witnesses && |Seen(cfg, u, seen)| == cfg.majority then u.level
    else if h == cfg.genesis then 0
    else Walk(db, cfg, u.bestParent, Seen(cfg, u, seen))
  }

  lemma {:induction false} WalkBounds(db: Store, cfg: Config, h: Hash, seen: set<Address>)
    requires Chained(db, cfg) && h in db
    ensures 0 <= Walk(db, cfg, h, seen) <= db[h].level
    decreases db[h].level
  {
    var u := db[h];
    if u.author in cfg.witnesses && |Seen(cfg, u, seen)| == cfg.majority {
    } else if h != cfg.genesis {
      WalkBounds(db, cfg, u.bestParent, Seen(cfg, u, seen));
    }
  }

  /** Starting with more witnesses already met never lowers the result. */
  lemma {:induction false} WalkMonotone(db: Store, cfg: Config, h: Hash, few: set<Address>, many: set<Address>)
    requires Chained(db, cfg) && h in db
    requires few <= many && (cfg.majority > 0 ==> |many| < cfg.majority)
    ensures Walk(db, cfg, h, few) <= Walk(db, cfg, h, many)
    decreases db[h].level
  {
    var u := db[h];
    var few', many' := Seen(cfg, u, few), Seen(cfg, u, many);
    SubsetSize(few', many');
    WalkBounds(db, cfg, h, few);
    if u.author in cfg.witnesses && |many'| == cfg.majority {
    } else if h != cfg.genesis {
      WalkMonotone(db, cfg, u.bestParent, few', many');
    }
  }

  /** The walk only reads the chain of h, so it is the same in every larger store. */
  lemma {:induction false} WalkFrame(db: Store, db': Store, cfg: Config, h: Hash, seen: set<Address>)
    requires Chained(db, cfg) && Chained(db', cfg) && h in db
    requires forall k :: k in db ==> k in db' && SameChainFields(db[k], db'[k])
    ensures Walk(db', cfg, h, seen) == Walk(db, cfg, h, seen)
    decreases db[h].level
  {
    var u := db[h];
    if u.author in cfg.witnesses && |Seen(cfg, u, seen)| == cfg.majority {
    } else if h != cfg.genesis {
      WalkFrame(db, db', cfg, u.bestParent, Seen(cfg, u, seen));
    }
  }

  predicate SameChainFields(u: Unit, v: Unit) {
    u.hash == v.hash && u.author == v.author && u.bestParent == v.bestParent && u.level == v.level
  }

  // ----- what the walk means, without walking

  /** The best-parent chain of h: h itself, its best parent, and so on down to the genesis unit. */
  ghost function Chain(db: Store, cfg: Config, h: Hash): seq<Hash>
    requires Chained(db, cfg) && h in db
    decreases db[h].level
  {
    if h == cfg.genesis then [h] else [h] + Chain(db, cfg, db[h].bestParent)
  }

  /** The witnesses that authored one of the given stored units. */
  ghost function WitnessesAmong(db: Store, cfg: Config, hs: seq<Hash>): set<Address> {
    set h | h in hs && h in db && db[h].author in cfg.witnesses :: db[h].author
  }

  /** The witnesses met on the first n units of a chain, on top of those in `seen`. */
  ghost function Met(db: Store, cfg: Config, chain: seq<Hash>, seen: set<Address>, n: int): set<Address>
    requires 0 <= n <= |chain|
  {
    seen + WitnessesAmong(db, cfg, chain[..n])
  }

  ghost function NumMet(db: Store, cfg: Config, chain: seq<Hash>, seen: set<Address>, n: int): nat
    requires 0 <= n <= |chain|
  {
    |Met(db, cfg, chain, seen, n)|
  }

  /** Position i of the chain is where the witnesses met first number a majority. */
  ghost predicate MajorityAt(db: Store, cfg: Config, chain: seq<Hash>, seen: set<Address>, i: int) {
    && 0 <= i < |chain|
    && NumMet(db, cfg, chain, seen, i + 1) == cfg.majority
    && forall j :: 0 <= j <= i ==> NumMet(db, cfg, chain, seen, j) != cfg.majority
  }

  /** The witnessed level over best parent h, by its meaning: the level of the first unit on the
      chain by which a majority of witnesses has been met, and 0 if the chain never meets one. */
  ghost predicate IsWitnessedLevel(db: Store, cfg: Config, h: Hash, wl: int)
    requires Chained(db, cfg) && h in db
  {
    var chain := Chain(db, cfg, h);
    || (exists i :: MajorityAt(db, cfg, chain, {}, i) && wl == GetUnit(db, chain[i]).level)
    || (wl == 0 && NeverMajority(db, cfg, chain, {}))
  }

  ghost predicate NeverMajority(db: Store, cfg: Config, chain: seq<Hash>, seen: set<Address>) {
    forall j :: 0 <= j <= |chain| ==> NumMet(db, cfg, chain, seen, j) != cfg.majority
  }

  lemma MetStep(db: Store, cfg: Config, h: Hash, rest: seq<Hash>, seen: set<Address>, n: nat)
    requires h in db && n <= |rest|
    ensures Met(db, cfg, [h] + rest, seen, n + 1) == Met(db, cfg, rest, Seen(cfg, db[h], seen), n)
  {
    assert ([h] + rest)[..n + 1] == [h] + rest[..n];
    var a, b := WitnessesAmong(db, cfg, [h] + rest[..n]), WitnessesAmong(db, cfg, rest[..n]);
    forall x | x in a ensures x in b || (x == db[h].author && x in cfg.witnesses) {
      var k :| k in [h] + rest[..n] && k in db && db[k].author in cfg.witnesses && db[k].author == x;
      assert k == h || k in rest[..n];
    }
    forall x | x in b ensures x in a {
      var k :| k in rest[..n] && k in db && db[k].author in cfg.witnesses && db[k].author == x;
      assert k in [h] + rest[..n];
    }
    if db[h].author in cfg.witnesses { assert h in [h] + rest[..n]; }
  }

  lemma MetNothing(db: Store, cfg: Config, chain: seq<Hash>, seen: set<Address>)
    ensures Met(db, cfg, chain, seen, 0) == seen
  {
  }

  /** The first majority position of the chain is i and its level wl, or (i < 0) there is none. */
  ghost predicate Finds(db: Store, cfg: Config, chain: seq<Hash>, seen: set<Address>, wl: int, i: int) {
    if i >= 0 then MajorityAt(db, cfg, chain, seen, i) && wl == GetUnit(db, chain[i]).level
    else wl == 0 && NeverMajority(db, cfg, chain, seen)
  }

  /** The walk finds the first majority position of the chain, or there is none. */
  lemma {:induction false} WalkFindsMajority(db: Store, cfg: Config, h: Hash, seen: set<Address>) returns (i: int)
    requires Chained(db, cfg) && h in db && |seen| != cfg.majority
    ensures Finds(db, cfg, Chain(db, cfg, h), seen, Walk(db, cfg, h, seen), i)
    decreases db[h].level
  {
    var seen', wl := Seen(cfg, db[h], seen), Walk(db, cfg, h, seen);
    var rest := if h == cfg.genesis then [] else Chain(db, cfg, db[h].bestParent);
    if |seen'| == cfg.majority {
      i := 0;
      FindsAtOnce(db, cfg, h, rest, seen);
    } else {
      i := -1;
      if h == cfg.genesis {
        MetNothing(db, cfg, [], seen');
      } else {
        i := WalkFindsMajority(db, cfg, db[h].bestParent, seen');
      }
      FindsLater(db, cfg, h, rest, seen, wl, i);
      i := if i < 0 then -1 else i + 1;
    }
    assert Chain(db, cfg, h) == [h] + rest;
  }

  lemma FindsAtOnce(db: Store, cfg: Config, h: Hash, rest: seq<Hash>, seen: set<Address>)
    requires h in db && |seen| != cfg.majority && |Seen(cfg, db[h], seen)| == cfg.majority
    ensures Finds(db, cfg, [h] + rest, seen, db[h].level, 0)
  {
    MetNothing(db, cfg, [h] + rest, seen);
    MetNothing(db, cfg, rest, Seen(cfg, db[h], seen));
    MetStep(db, cfg, h, rest, seen, 0);
  }

  /** A chain one unit longer meets its majority one position later. */
  lemma FindsLater(db: Store, cfg: Config, h: Hash, rest: seq<Hash>, seen: set<Address>, wl: int, i: int)
    requires h in db && |seen| != cfg.majority && Finds(db, cfg, rest, Seen(cfg, db[h], seen), wl, i)
    ensures Finds(db, cfg, [h] + rest, seen, wl, if i < 0 then -1 else i + 1)
  {
    if i < 0 { NeverLater(db, cfg, h, rest, seen); } else { MajorityLater(db, cfg, h, rest, seen, i); }
  }

  lemma MajorityLater(db: Store, cfg: Config, h: Hash, rest: seq<Hash>, seen: set<Address>, i: int)
    requires h in db && |seen| != cfg.majority && MajorityAt(db, cfg, rest, Seen(cfg, db[h], seen), i)
    ensures MajorityAt(db, cfg, [h] + rest, seen, i + 1)
  {
    MetLater(db, cfg, h, rest, seen);
    forall j | 0 <= j <= i + 1 ensures NumMet(db, cfg, [h] + rest, seen, j) != cfg.majority {
      assert j > 0 ==> NumMet(db, cfg, rest, Seen(cfg, db[h], seen), j - 1) != cfg.majority;
    }
  }

  lemma NeverLater(db: Store, cfg: Config, h: Hash, rest: seq<Hash>, seen: set<Address>)
    requires h in db && |seen| != cfg.majority && NeverMajority(db, cfg, rest, Seen(cfg, db[h], seen))
    ensures NeverMajority(db, cfg, [h] + rest, seen)
  {
    MetLater(db, cfg, h, rest, seen);
    forall j | 0 <= j <= |rest| + 1 ensures NumMet(db, cfg, [h] + rest, seen, j) != cfg.majority {
      assert j > 0 ==> NumMet(db, cfg, rest, Seen(cfg, db[h], seen), j - 1) != cfg.majority;
    }
  }

  /** What is met one unit later, on the longer chain. */
  lemma MetLater(db: Store, cfg: Config, h: Hash, rest: seq<Hash>, seen: set<Address>)
    requires h in db
    ensures NumMet(db, cfg, [h] + rest, seen, 0) == |seen|
    ensures forall j :: 1 <= j <= |rest| + 1 ==>
      NumMet(db, cfg, [h] + rest, seen, j) == NumMet(db, cfg, rest, Seen(cfg, db[h], seen), j - 1)
  {
    MetNothing(db, cfg, [h] + rest, seen);
    forall j | 1 <= j <= |rest| + 1
      ensures NumMet(db, cfg, [h] + rest, seen, j) == NumMet(db, cfg, rest, Seen(cfg, db[h], seen), j - 1)
    {
      MetStep(db, cfg, h, rest, seen, j - 1);
    }
  }

  /** The walk computes the witnessed level as it is meant, and no other number has that meaning. */
  lemma WalkIsWitnessedLevel(db: Store, cfg: Config, h: Hash, wl: int)
    requires Chained(db, cfg) && h in db && cfg.majority > 0
    ensures IsWitnessedLevel(db, cfg, h, wl) <==> wl == Walk(db, cfg, h, {})
  {
    var i := WalkFindsMajority(db, cfg, h, {});
    var chain := Chain(db, cfg, h);
    forall j | i >= 0 && MajorityAt(db, cfg, chain, {}, j) ensures j == i {
      MajorityIsUnique(db, cfg, chain, {}, i, j);
    }
  }

  lemma MajorityIsUnique(db: Store, cfg: Config, chain: seq<Hash>, seen: set<Address>, i: int, j: int)
    requires MajorityAt(db, cfg, chain, seen, i) && MajorityAt(db, cfg, chain, seen, j)
    ensures i == j && !NeverMajority(db, cfg, chain, seen)
  {
  }

  // ----- growing the store

  /** Everything a store built by this code keeps. */
  ghost predicate Inv(db: Store, cfg: Config) {
    && Chained(db, cfg)
    && db[cfg.genesis].witnessedLevel == 0 && db[cfg.genesis].parents == []
    && (forall h :: h in db && h != cfg.genesis ==> WellBuilt(db, cfg, db[h]))
  }

  /** u carries what the graph code computes from its parents. */
  ghost predicate WellBuilt(db: Store, cfg: Config, u: Unit)
    requires Chained(db, cfg)
  {
    && |u.parents| > 0
    && (forall p :: p in u.parents ==> p in db)
    && IsBestParent(db, u.parents, u.bestParent)
    && IsLevelOver(db, u.parents, u.level)
    && u.witnessedLevel == Walk(db, cfg, u.bestParent, {})
  }

  /** One event of a run: a new unit is built and saved, or the stability stamp of a stored unit is
      set or reset. */
  datatype Event =
    | Save(unit: Unit)
    | Restamp(hash: Hash, stable: bool, mci: int)

  ghost predicate Enabled(db: Store, cfg: Config, e: Event)
    requires Chained(db, cfg)
  {
    match e
    case Save(u) => u.hash !in db && WellBuilt(db, cfg, u)
    case Restamp(h, _, _) => h in db
  }

  function Apply(db: Store, e: Event): Store {
    match e
    case Save(u) => db[u.hash := u]
    case Restamp(h, s, m) => db[h := GetUnit(db, h).(isStable := s, mci := m)]
  }

  /** Extending or restamping the store leaves the metadata of every stored unit right. */
  lemma WellBuiltFrame(db: Store, db': Store, cfg: Config, u: Unit)
    requires Chained(db, cfg) && Chained(db', cfg) && WellBuilt(db, cfg, u)
    requires forall k :: k in db ==>
      && k in db' && SameChainFields(db[k], db'[k])
      && db[k].witnessedLevel == db'[k].witnessedLevel && db[k].key == db'[k].key
    ensures WellBuilt(db', cfg, u)
  {
    WalkFrame(db, db', cfg, u.bestParent, {});
    if u.level != 1 {
      var p :| p in u.parents && GetUnit(db, p).level == u.level - 1;
      assert GetUnit(db', p).level == u.level - 1;
    }
  }

  lemma StepKeepsChains(db: Store, cfg: Config, e: Event)
    requires Inv(db, cfg) && Enabled(db, cfg, e)
    ensures Chained(Apply(db, e), cfg)
  {
    if e.Save? {
      assert IsBestParent(db, e.unit.parents, e.unit.bestParent);
    }
  }

  lemma StepKeepsInv(db: Store, cfg: Config, e: Event)
    requires Inv(db, cfg) && Enabled(db, cfg, e)
    ensures Inv(Apply(db, e), cfg)
  {
    StepKeepsChains(db, cfg, e);
    var db' := Apply(db, e);
    forall h | h in db' && h != cfg.genesis ensures WellBuilt(db', cfg, db'[h]) {
      StepKeepsUnit(db, cfg, e, h);
    }
  }

  lemma StepKeepsUnit(db: Store, cfg: Config, e: Event, h: Hash)
    requires Inv(db, cfg) && Enabled(db, cfg, e) && Chained(Apply(db, e), cfg)
    requires h in Apply(db, e) && h != cfg.genesis
    ensures WellBuilt(Apply(db, e), cfg, Apply(db, e)[h])
  {
    var db', u := Apply(db, e), if e.Save? && h == e.unit.hash then e.unit else db[h];
    StepFrames(db, e);
    WellBuiltFrame(db, db', cfg, u);
    if db'[h] != u { RestampedIsBuilt(db', cfg, u, e.stable, e.mci); }
  }

  lemma StepFrames(db: Store, e: Event)
    requires if e.Save? then e.unit.hash !in db else e.hash in db
    ensures var db' := Apply(db, e);
            forall k :: k in db ==>
              && k in db' && SameChainFields(db[k], db'[k])
              && db[k].witnessedLevel == db'[k].witnessedLevel && db[k].key == db'[k].key
  {
  }

  lemma RestampedIsBuilt(db: Store, cfg: Config, u: Unit, stable: bool, mci: int)
    requires Chained(db, cfg) && WellBuilt(db, cfg, u)
    ensures WellBuilt(db, cfg, u.(isStable := stable, mci := mci))
  {
  }

  /** A store that some run of events leads to, from the genesis unit alone. */
  ghost predicate Run(db0: Store, cfg: Config, es: seq<Event>, db: Store)
    requires Inv(db0, cfg)
    decreases |es|
  {
    if es == [] then db == db0
    else Enabled(db0, cfg, es[0]) && (StepKeepsInv(db0, cfg, es[0]); Run(Apply(db0, es[0]), cfg, es[1..], db))
  }

  ghost predicate GenesisStore(db: Store, cfg: Config) {
    && db.Keys == {cfg.genesis}
    && var g := db[cfg.genesis];
       g.hash == cfg.genesis && g.parents == [] && g.witnessedLevel == 0 && g.level >= 0
  }

  lemma {:induction false} RunKeepsInv(db0: Store, cfg: Config, es: seq<Event>, db: Store)
    requires Inv(db0, cfg) && Run(db0, cfg, es, db)
    ensures Inv(db, cfg)
    decreases |es|
  {
    if es != [] {
      StepKeepsInv(db0, cfg, es[0]);
      RunKeepsInv(Apply(db0, es[0]), cfg, es[1..], db);
    }
  }

  /** In every store a run leads to, a unit's witnessed level is at least that of each of its
      parents, not only of the best one. */
  lemma WitnessedLevelOverParents(db: Store, cfg: Config, h: Hash, p: Hash)
    requires Inv(db, cfg) && h in db && p in db[h].parents
    ensures p in db && db[p].witnessedLevel <= db[h].witnessedLevel < db[h].level
  {
    var u := db[h];
    var b := u.bestParent;
    assert !Better(GetUnit(db, p), GetUnit(db, b));
    WalkBounds(db, cfg, b, {});
    if b != cfg.genesis {
      var c := db[b].bestParent;
      var seen := Seen(cfg, db[b], {});
      WalkBounds(db, cfg, c, {});
      if !(db[b].author in cfg.witnesses && |seen| == cfg.majority) {
        WalkMonotone(db, cfg, c, {}, seen);
      }
    }
  }

  /** a is h or one of its ancestors: a path of parent links leads from h to a. */
  ghost predicate IsPath(db: Store, path: seq<Hash>) {
    && |path| > 0
    && forall i :: 0 <= i < |path| - 1 ==> path[i + 1] in GetUnit(db, path[i]).parents
  }

  /** Over every run from genesis: along any path of parent links, witnessed levels never increase
      and levels strictly decrease. */
  lemma {:induction false} WitnessedLevelMonotone(db0: Store, cfg: Config, es: seq<Event>, db: Store, path: seq<Hash>)
    requires GenesisStore(db0, cfg) && Inv(db0, cfg) && Run(db0, cfg, es, db)
    requires IsPath(db, path) && path[0] in db
    ensures path[|path| - 1] in db
    ensures db[path[|path| - 1]].witnessedLevel <= db[path[0]].witnessedLevel
    ensures db[path[|path| - 1]].level <= db[path[0]].level - (|path| - 1)
    decreases |path|
  {
    RunKeepsInv(db0, cfg, es, db);
    if |path| > 1 {
      assert path[1] in GetUnit(db, path[0]).parents;
      WitnessedLevelOverParents(db, cfg, path[0], path[1]);
      var tail := path[1..];
      forall i | 0 <= i < |tail| - 1 ensures tail[i + 1] in GetUnit(db, tail[i]).parents {
        assert path[(i + 1) + 1] in GetUnit(db, path[i + 1]).parents;
      }
      WitnessedLevelMonotone(db0, cfg, es, db, tail);
    }
  }

  /** Over every run from genesis: the best parent of a stored unit has the highest witnessed level of its
      parents, among those with that witnessed level the lowest level, and among those the smallest key. */
  lemma BestParentOfEveryUnit(db0: Store, cfg: Config, es: seq<Event>, db: Store, h: Hash, p: Hash)
    requires GenesisStore(db0, cfg) && Inv(db0, cfg) && Run(db0, cfg, es, db)
    requires h in db && h != cfg.genesis && p in db[h].parents
    ensures p in db && db[h].bestParent in db && db[h].bestParent in db[h].parents
    ensures var b := db[db[h].bestParent];
            && db[p].witnessedLevel <= b.witnessedLevel
            && (db[p].witnessedLevel == b.witnessedLevel ==> b.level <= db[p].level)
            && (db[p].witnessedLevel == b.witnessedLevel && db[p].level == b.level ==> b.key <= db[p].key)
  {
    RunKeepsInv(db0, cfg, es, db);
    assert WellBuilt(db, cfg, db[h]);
    BestParentIff(db, db[h].parents, db[h].bestParent);
  }

  /** The level of a stored unit is the number of parent links on a longest path from it to the genesis
      unit, above the level of the genesis unit. */
  lemma {:induction false} LevelIsLongestPath(db0: Store, cfg: Config, es: seq<Event>, db: Store, h: Hash)
    returns (path: seq<Hash>)
    requires GenesisStore(db0, cfg) && Inv(db0, cfg) && Run(db0, cfg, es, db) && h in db
    ensures IsPath(db, path) && path[0] == h && path[|path| - 1] == cfg.genesis
    ensures cfg.genesis in db && |path| - 1 == db[h].level - db[cfg.genesis].level
    ensures forall q :: IsPath(db, q) && q[0] == h && q[|q| - 1] == cfg.genesis ==> |q| <= |path|
    decreases db[h].level
  {
    RunKeepsInv(db0, cfg, es, db);
    forall q | IsPath(db, q) && q[0] == h && q[|q| - 1] == cfg.genesis
      ensures |q| - 1 <= db[h].level - db[cfg.genesis].level
    {
      WitnessedLevelMonotone(db0, cfg, es, db, q);
    }
    if h == cfg.genesis {
      path := [h];
    } else {
      var p := HighestParent(db, cfg, h);
      var rest := LevelIsLongestPath(db0, cfg, es, db, p);
      path := [h] + rest;
      forall i | 0 <= i < |path| - 1 ensures path[i + 1] in GetUnit(db, path[i]).parents {
        assert i > 0 ==> rest[(i - 1) + 1] in GetUnit(db, rest[i - 1]).parents;
      }
    }
  }

  lemma HighestParent(db: Store, cfg: Config, h: Hash) returns (p: Hash)
    requires Inv(db, cfg) && h in db && h != cfg.genesis
    ensures p in db && p in db[h].parents && db[p].level == db[h].level - 1
  {
    assert WellBuilt(db, cfg, db[h]);
    p := db[h].bestParent;
    if db[h].level != 1 {
      p :| p in db[h].parents && GetUnit(db, p).level == db[h].level - 1;
    }
  }

  /** A genesis store starts the invariant. */
  lemma GenesisInv(db: Store, cfg: Config)
    requires GenesisStore(db, cfg)
    ensures Inv(db, cfg)
  {
    forall h | h in db ensures h == cfg.genesis { assert h in db.Keys; }
    assert cfg.genesis in db.Keys;
  }

  // ----- the order of the tips

  /** Every unit that the run saves has a content key that no stored unit has: no hash collision. */
  ghost predicate FreshKeys(db: Store, es: seq<Event>)
    decreases |es|
  {
    es != [] ==>
      && (es[0].Save? ==> forall h :: h in db ==> db[h].key != es[0].unit.key)
      && FreshKeys(Apply(db, es[0]), es[1..])
  }

  lemma StepKeepsKeys(db: Store, e: Event)
    requires KeysDistinct(db) && (e.Restamp? ==> e.hash in db)
    requires e.Save? ==> forall h :: h in db ==> db[h].key != e.unit.key
    ensures KeysDistinct(Apply(db, e))
  {
  }

  lemma {:induction false} RunKeepsKeys(db0: Store, cfg: Config, es: seq<Event>, db: Store)
    requires Inv(db0, cfg) && Run(db0, cfg, es, db) && KeysDistinct(db0) && FreshKeys(db0, es)
    ensures KeysDistinct(db)
    decreases |es|
  {
    if es != [] {
      StepKeepsInv(db0, cfg, es[0]);
      StepKeepsKeys(db0, es[0]);
      RunKeepsKeys(Apply(db0, es[0]), cfg, es[1..], db);
    }
  }

  lemma LevelIsUnique(db: Store, ps: seq<Hash>, qs: seq<Hash>, l: int, m: int)
    requires (forall p :: p in ps <==> p in qs) && IsLevelOver(db, ps, l) && IsLevelOver(db, qs, m)
    ensures l == m
  {
  }

  /** Over every run from genesis without a hash collision: two units built over the same tips, listed in
      any two orders, get the same best parent, level and witnessed level. */
  lemma BuildIsOrderFree(db0: Store, cfg: Config, es: seq<Event>, db: Store, u: Unit, v: Unit)
    requires GenesisStore(db0, cfg) && Inv(db0, cfg) && Run(db0, cfg, es, db) && FreshKeys(db0, es)
    requires Chained(db, cfg) && WellBuilt(db, cfg, u) && WellBuilt(db, cfg, v)
    requires forall p :: p in u.parents <==> p in v.parents
    ensures u.bestParent == v.bestParent && u.level == v.level && u.witnessedLevel == v.witnessedLevel
  {
    forall h | h in db0 ensures h == cfg.genesis { assert h in db0.Keys; }
    RunKeepsKeys(db0, cfg, es, db);
    BestParentIsOrderFree(db, u.parents, v.parents, u.bestParent, v.bestParent);
    LevelIsUnique(db, u.parents, v.parents, u.level, v.level);
  }
}
