/** Which ids a dev-only cfg keeps out of the catalog, and which it is meant to keep out
    (internal/gates/gen/gen.py). */
module GatesGuards {
  import opened Types
  import opened GatesParser
  import opened GatesTree
  import opened GatesCatalog

  // ----- what guarding means -----

  /** A dev-only cfg stands somewhere in a run of attribute and blank lines. */
  predicate AnyDev(above: seq<Above>) {
    Cfg(DevContextOnly) in above
  }

  /** The ids that no dev-only cfg guards: neither one in the run above the id itself, nor one in the
      run above a module or block around it. */
  function Intended(path: Path, guarded: bool, items: seq<Item>): seq<Id>
    decreases items, 2
  {
    if items == [] then [] else IntendedItem(path, guarded, items[0]) + Intended(path, guarded, items[1..])
  }

  function IntendedItem(path: Path, guarded: bool, it: Item): seq<Id>
    decreases it, 1
  {
    if it.Node? then IntendedBody(path, guarded || AnyDev(it.above), it.body) else []
  }

  function IntendedBody(path: Path, guarded: bool, b: Body): seq<Id>
    decreases b, 0
  {
    match b
    case Declare(a) => if guarded then [] else [Id(path, a)]
    case Module(n, items) => Intended(path + [n], guarded, items)
    case OneLine(n, a) => if guarded then [] else [Id(path + [n], a)]
    case Block(items) => Intended(path, guarded, items)
    case Statement(_) => []
  }

  // ----- when the parser agrees -----

  /** Some id among the items gets into the catalog. */
  predicate HoldsProduction(items: seq<Item>)
    decreases items, 2
  {
    items != [] && ((items[0].Node? && BodyHolds(DevOnly(items[0].above), items[0].body)) || HoldsProduction(items[1..]))
  }

  predicate BodyHolds(dev: bool, b: Body)
    decreases b, 0
  {
    match b
    case Declare(_) => !dev
    case Module(_, items) => HoldsProduction(items)
    case OneLine(_, _) => !dev
    case Block(items) => HoldsProduction(items)
    case Statement(_) => false
  }

  /** A dev-only cfg above an id is the last cfg of its run, and none stands above a module or block
      that holds production ids. */
  predicate Unleaky(items: seq<Item>)
    decreases items, 2
  {
    items != [] ==>
      && (items[0].Node? ==> UnleakyBody(AnyDev(items[0].above), DevOnly(items[0].above), items[0].body))
      && Unleaky(items[1..])
  }

  predicate UnleakyBody(any: bool, dev: bool, b: Body)
    decreases b, 0
  {
    match b
    case Declare(_) => any ==> dev
    case Module(_, items) => (any ==> !HoldsProduction(items)) && Unleaky(items)
    case OneLine(_, _) => any ==> dev
    case Block(items) => (any ==> !HoldsProduction(items)) && Unleaky(items)
    case Statement(_) => true
  }

  lemma {:induction false} DevOnlyIsAny(above: seq<Above>)
    ensures DevOnly(above) ==> AnyDev(above)
  {
    if above != [] && !above[|above| - 1].Cfg? {
      DevOnlyIsAny(above[..|above| - 1]);
    }
  }

  lemma {:induction false} NothingHeld(path: Path, items: seq<Item>)
    ensures Ids(path, items) == [] <==> !HoldsProduction(items)
    decreases items, 2
  {
    if items != [] {
      NothingHeld(path, items[1..]);
      if items[0].Node? {
        NothingHeldInBody(path, DevOnly(items[0].above), items[0].body);
      }
    }
  }

  lemma {:induction false} NothingHeldInBody(path: Path, dev: bool, b: Body)
    ensures BodyIds(path, dev, b) == [] <==> !BodyHolds(dev, b)
    decreases b, 0
  {
    match b
    case Module(n, items) => NothingHeld(path + [n], items);
    case Block(items) => NothingHeld(path, items);
    case _ =>
  }

  lemma {:induction false} GuardedHasNone(path: Path, items: seq<Item>)
    ensures Intended(path, true, items) == []
    decreases items, 2
  {
    if items != [] {
      GuardedHasNone(path, items[1..]);
      if items[0].Node? {
        GuardedBodyHasNone(path, items[0].body);
      }
    }
  }

  lemma {:induction false} GuardedBodyHasNone(path: Path, b: Body)
    ensures IntendedBody(path, true, b) == []
    decreases b, 0
  {
    match b
    case Module(n, items) => GuardedHasNone(path + [n], items);
    case Block(items) => GuardedHasNone(path, items);
    case _ =>
  }

  /** `kept` misses nothing of `meant`, and is `meant` exactly when `clean`. */
  predicate Covers(kept: seq<Id>, meant: seq<Id>, clean: bool) {
    && |meant| <= |kept|
    && (clean <==> |meant| == |kept|)
    && (clean ==> meant == kept)
    && (forall id :: id in meant ==> id in kept)
  }

  lemma CoversConcat(k1: seq<Id>, m1: seq<Id>, c1: bool, k2: seq<Id>, m2: seq<Id>, c2: bool)
    requires Covers(k1, m1, c1) && Covers(k2, m2, c2)
    ensures Covers(k1 + k2, m1 + m2, c1 && c2)
  {
  }

  lemma {:induction false} BodyCovers(path: Path, above: seq<Above>, b: Body)
    ensures Covers(BodyIds(path, DevOnly(above), b), IntendedBody(path, AnyDev(above), b),
                   UnleakyBody(AnyDev(above), DevOnly(above), b))
    decreases b, 0
  {
    DevOnlyIsAny(above);
    match b
    case Module(n, items) => NestedCovers(path + [n], AnyDev(above), items);
    case Block(items) => NestedCovers(path, AnyDev(above), items);
    case _ =>
  }

  lemma {:induction false} NestedCovers(path: Path, any: bool, items: seq<Item>)
    ensures Covers(Ids(path, items), Intended(path, any, items), (any ==> !HoldsProduction(items)) && Unleaky(items))
    decreases items, 3
  {
    IdsCover(path, items);
    if any {
      GuardedHasNone(path, items);
      NothingHeld(path, items);
      if !HoldsProduction(items) {
        assert |Intended(path, false, items)| == 0;
      }
    }
  }

  lemma {:induction false} IdsCover(path: Path, items: seq<Item>)
    ensures Covers(Ids(path, items), Intended(path, false, items), Unleaky(items))
    decreases items, 2
  {
    if items != [] {
      var it, rest := items[0], items[1..];
      IdsCover(path, rest);
      if it.Node? {
        BodyCovers(path, it.above, it.body);
        CoversConcat(BodyIds(path, DevOnly(it.above), it.body), IntendedBody(path, AnyDev(it.above), it.body),
                     UnleakyBody(AnyDev(it.above), DevOnly(it.above), it.body),
                     Ids(path, rest), Intended(path, false, rest), Unleaky(rest));
      } else {
        CoversConcat([], [], true, Ids(path, rest), Intended(path, false, rest), Unleaky(rest));
      }
    }
  }

  /** For every tree: the ids that get into the catalog are the ones meant to, exactly when every
      dev-only cfg above an id is the last cfg above it and none stands above a module or block
      that holds production ids. Nothing that is meant to get in is ever left out. */
  lemma GuardsHoldExactly(items: seq<Item>)
    ensures Ids([], items) == Intended([], false, items) <==> Unleaky(items)
    ensures forall id :: id in Intended([], false, items) ==> id in Ids([], items)
  {
    IdsCover([], items);
  }

  /** The same for the parsed catalog of a well-named tree: it holds exactly the ids it is meant to
      hold if and only if the tree is free of such leaks. */
  lemma CatalogIsIntendedExactly(items: seq<Item>)
    requires WellNamed(items) && !Stray(items)
    ensures Parse(Print(items)).Ok?
    ensures (forall id: Id :: id in Intended([], false, items) <==>
               id.path in Parse(Print(items)).value.addressOf && Parse(Print(items)).value.addressOf[id.path] == id.address)
            <==> Unleaky(items)
  {
    WellNamedRoundTrip(items);
    IdsDistinct([], items);
    IdsCover([], items);
    if forall id: Id :: id in Intended([], false, items) <==> id in Ids([], items) {
      DistinctIdsCount(Ids([], items), Intended([], false, items));
    }
  }

  /** A list without repeats is no longer than any list that contains it. */
  lemma {:induction false} DistinctIdsCount(ids: seq<Id>, others: seq<Id>)
    requires DistinctPaths(ids) && forall id :: id in ids ==> id in others
    ensures |ids| <= |others|
  {
    if ids != [] {
      var rest, last := ids[..|ids| - 1], ids[|ids| - 1];
      assert ids[|ids| - 1] in ids;
      var i :| 0 <= i < |others| && others[i] == last;
      var fewer := others[..i] + others[i + 1..];
      forall id | id in rest ensures id in fewer {
        var j :| 0 <= j < |rest| && rest[j] == id;
        assert ids[j].path != last.path && id in ids;
        var k :| 0 <= k < |others| && others[k] == id;
        assert fewer[if k < i then k else k - 1] == id;
      }
      DistinctIdsCount(rest, fewer);
    }
  }

  // ----- inputs that leak -----

  /** Two stacked cfg lines: only the lower one counts, so a dev-only cfg above another cfg does not
      keep its id out of the catalog; and a dev-only cfg above a module does not either. One right
      above the id does. */
  lemma DevOnlyReachesOneLineOnly(n: string, a: string)
    ensures var stacked := [Node([], Module(n, [Node([Cfg(DevContextOnly), Cfg(OtherCfg("test"))], Declare(a))]))];
            Intended([], false, stacked) == [] && Parse(Print(stacked)) == Ok(Catalog(map[[n] := a], 1))
    ensures var above := [Node([Cfg(DevContextOnly)], Module(n, [Node([], Declare(a))]))];
            Intended([], false, above) == [] && Parse(Print(above)) == Ok(Catalog(map[[n] := a], 1))
    ensures var direct := [Node([], Module(n, [Node([Cfg(DevContextOnly)], Declare(a))]))];
            Intended([], false, direct) == [] && Parse(Print(direct)) == Ok(Catalog(map[], 1))
  {
    var dev, test := Cfg(DevContextOnly), Cfg(OtherCfg("test"));
    assert [dev, test][1] == test && [dev][0] == dev;
    assert !DevOnly([dev, test]) && !DevOnly([]) && DevOnly([dev]);
    assert AnyDev([dev, test]) && AnyDev([dev]);
    var d1, d2, d3 := Node([dev, test], Declare(a)), Node([], Declare(a)), Node([dev], Declare(a));
    OneModuleParses(n, [], d1);
    OneModuleIntended(n, [], d1);
    OneModuleParses(n, [dev], d2);
    OneModuleIntended(n, [dev], d2);
    OneModuleParses(n, [], d3);
    OneModuleIntended(n, [], d3);
  }

  /** The ids of a tree with one module holding one item. */
  lemma OneModuleIds(n: string, above: seq<Above>, it: Item)
    requires it.Node? && it.body.Declare?
    ensures var tree := [Node(above, Module(n, [it]))];
            && Ids([], tree) == (if DevOnly(it.above) then [] else [Id([n], it.body.address)])
            && Count(tree) == 1 && !Stray(tree)
  {
    var tree := [Node(above, Module(n, [it]))];
    assert [] + [n] == [n];
    assert [it][1..] == [] && tree[1..] == [];
    assert Ids([n], [it]) == ItemIds([n], it) + Ids([n], []) == ItemIds([n], it);
    assert ItemIds([], tree[0]) == BodyIds([], DevOnly(above), tree[0].body) == Ids([n], [it]);
    assert Ids([], tree) == ItemIds([], tree[0]) + Ids([], []);
    assert Count([it]) == 1;
  }

  lemma OneModuleIntended(n: string, above: seq<Above>, it: Item)
    requires it.Node? && it.body.Declare? && (AnyDev(above) || AnyDev(it.above))
    ensures Intended([], false, [Node(above, Module(n, [it]))]) == []
  {
    var tree := [Node(above, Module(n, [it]))];
    assert [] + [n] == [n];
    assert [it][1..] == [] && tree[1..] == [];
    assert IntendedItem([n], AnyDev(above), it) == [];
    assert Intended([n], AnyDev(above), [it]) == IntendedItem([n], AnyDev(above), it) + Intended([n], AnyDev(above), []);
    assert IntendedItem([], false, tree[0]) == IntendedBody([], AnyDev(above), tree[0].body) == Intended([n], AnyDev(above), [it]);
    assert Intended([], false, tree) == IntendedItem([], false, tree[0]) + Intended([], false, []);
  }

  lemma OneModuleParses(n: string, above: seq<Above>, it: Item)
    requires it.Node? && it.body.Declare?
    ensures Parse(Print([Node(above, Module(n, [it]))]))
            == Ok(Catalog(if DevOnly(it.above) then map[] else map[[n] := it.body.address], 1))
  {
    var tree := [Node(above, Module(n, [it]))];
    OneModuleIds(n, above, it);
    ParsePrinted(tree);
    RepeatedExactly(Ids([], tree));
    SingleId(Id([n], it.body.address));
  }

  lemma SingleId(id: Id)
    ensures AddressMap([id]) == map[id.path := id.address]
  {
    assert [id][..0] == [];
  }
}
