/** When the generated catalog is complete and unambiguous: well-named module trees, the joined
    path names, and the grouping of modules that share an address
    (internal/gates/gen/gen.py). */
module GatesCatalog {
  import opened Types
  import opened GatesParser
  import opened GatesTree

  // ----- unique paths -----

  ghost predicate DistinctPaths(ids: seq<Id>) {
    forall i, j :: 0 <= i < j < |ids| ==> ids[i].path != ids[j].path
  }

  lemma {:induction false} AtMostOneAddress(ids: seq<Id>, path: Path)
    requires DistinctPaths(ids)
    ensures |AddressesOf(ids, path)| <= 1
  {
    if ids != [] {
      var rest := ids[..|ids| - 1];
      AtMostOneAddress(rest, path);
      NoAddresses(rest, path);
      assert forall i :: 0 <= i < |rest| ==> Paths(rest)[i] == ids[i].path;
    }
  }

  lemma {:induction false} TwoAddresses(ids: seq<Id>, i: nat, j: nat)
    requires i < j < |ids| && ids[i].path == ids[j].path
    ensures |AddressesOf(ids, ids[i].path)| >= 2
  {
    var rest := ids[..|ids| - 1];
    if j < |rest| {
      TwoAddresses(rest, i, j);
    } else {
      NoAddresses(rest, ids[i].path);
      assert Paths(rest)[i] == ids[i].path;
    }
  }

  lemma {:induction false} FirstRepeatedFinds(ids: seq<Id>, order: seq<Path>, k: nat)
    requires k < |order| && |AddressesOf(ids, order[k])| != 1
    ensures FirstRepeated(ids, order).Some?
  {
    if k > 0 {
      FirstRepeatedFinds(ids, order[1..], k - 1);
    }
  }

  /** Parsing reports a repeated id exactly when two production ids share a full path. */
  lemma RepeatedExactly(ids: seq<Id>)
    ensures FirstRepeated(ids, FirstOccurrences(Paths(ids))).None? <==> DistinctPaths(ids)
  {
    var order := FirstOccurrences(Paths(ids));
    if DistinctPaths(ids) {
      forall k | 0 <= k < |order| ensures |AddressesOf(ids, order[k])| == 1 {
        assert order[k] in order;
        AtMostOneAddress(ids, order[k]);
        NoAddresses(ids, order[k]);
      }
      FirstRepeatedAt(ids, order, |order|);
    } else {
      var i, j :| 0 <= i < j < |ids| && ids[i].path == ids[j].path;
      TwoAddresses(ids, i, j);
      assert Paths(ids)[i] in Paths(ids);
      var k :| 0 <= k < |order| && order[k] == ids[i].path;
      FirstRepeatedFinds(ids, order, k);
    }
  }

  /** With unique paths the map holds exactly the logged ids. */
  lemma {:induction false} MapIsExact(ids: seq<Id>, id: Id)
    requires DistinctPaths(ids)
    ensures id in ids <==> id.path in AddressMap(ids) && AddressMap(ids)[id.path] == id.address
  {
    if ids != [] {
      var rest, last := ids[..|ids| - 1], ids[|ids| - 1];
      assert ids == rest + [last];
      MapIsExact(rest, id);
      forall i | 0 <= i < |rest| ensures rest[i].path != last.path {
        assert ids[i] == rest[i];
      }
    }
  }

  // ----- well-named trees -----

  /** The production ids declared directly in a module, blocks included. */
  function Own(items: seq<Item>): nat
    decreases items, 2
  {
    if items == [] then 0
    else (if items[0].Node? then BodyOwn(DevOnly(items[0].above), items[0].body) else 0) + Own(items[1..])
  }

  function BodyOwn(dev: bool, b: Body): nat
    decreases b, 0
  {
    match b
    case Declare(_) => if dev then 0 else 1
    case Block(items) => Own(items)
    case _ => 0
  }

  /** The names of the modules directly inside a module; a dropped one-line module has none. */
  function ChildNames(items: seq<Item>): seq<string>
    decreases items, 2
  {
    if items == [] then []
    else (if items[0].Node? then BodyNames(DevOnly(items[0].above), items[0].body) else []) + ChildNames(items[1..])
  }

  function BodyNames(dev: bool, b: Body): seq<string>
    decreases b, 0
  {
    match b
    case Module(n, _) => [n]
    case OneLine(n, _) => if dev then [] else [n]
    case Block(items) => ChildNames(items)
    case _ => []
  }

  predicate DistinctNames(names: seq<string>) {
    forall i, j :: 0 <= i < j < |names| ==> names[i] != names[j]
  }

  /** Sibling modules have distinct names and each module has at most one production id. */
  predicate WellNamed(items: seq<Item>)
    decreases items, 3
  {
    Own(items) <= 1 && DistinctNames(ChildNames(items)) && WellNamedInside(items)
  }

  predicate WellNamedInside(items: seq<Item>)
    decreases items, 2
  {
    items != [] ==> (items[0].Node? ==> WellNamedBody(items[0].body)) && WellNamedInside(items[1..])
  }

  predicate WellNamedBody(b: Body)
    decreases b, 0
  {
    match b
    case Module(_, items) => WellNamed(items)
    case Block(items) => WellNamedInside(items)
    case _ => true
  }

  /** Every id lies at `path` itself, if the items have an own id, or below one of their modules. */
  predicate Under(ids: seq<Id>, path: Path, own: nat, names: seq<string>) {
    forall i :: 0 <= i < |ids| ==>
      && path <= ids[i].path
      && (|ids[i].path| == |path| ==> own > 0)
      && (|ids[i].path| > |path| ==> ids[i].path[|path|] in names)
  }

  lemma UnderConcat(a: seq<Id>, b: seq<Id>, path: Path, o1: nat, n1: seq<string>, o2: nat, n2: seq<string>)
    requires Under(a, path, o1, n1) && Under(b, path, o2, n2)
    ensures Under(a + b, path, o1 + o2, n1 + n2)
  {
  }

  lemma {:induction false} BodyUnder(path: Path, dev: bool, b: Body)
    ensures Under(BodyIds(path, dev, b), path, BodyOwn(dev, b), BodyNames(dev, b))
    decreases b, 0
  {
    match b
    case Module(n, items) =>
      IdsUnder(path + [n], items);
      assert (path + [n])[|path|] == n;
    case Block(items) => IdsUnder(path, items);
    case _ =>
  }

  lemma {:induction false} IdsUnder(path: Path, items: seq<Item>)
    ensures Under(Ids(path, items), path, Own(items), ChildNames(items))
    decreases items, 2
  {
    if items != [] {
      IdsUnder(path, items[1..]);
      if items[0].Node? {
        var dev, body := DevOnly(items[0].above), items[0].body;
        BodyUnder(path, dev, body);
        UnderConcat(BodyIds(path, dev, body), Ids(path, items[1..]), path,
                    BodyOwn(dev, body), BodyNames(dev, body), Own(items[1..]), ChildNames(items[1..]));
      } else {
        assert [] + Ids(path, items[1..]) == Ids(path, items[1..]);
        assert [] + ChildNames(items[1..]) == ChildNames(items[1..]);
      }
    }
  }

  lemma DistinctSplit(n1: seq<string>, n2: seq<string>)
    requires DistinctNames(n1 + n2)
    ensures DistinctNames(n1) && DistinctNames(n2)
    ensures forall n :: n in n1 ==> n !in n2
  {
    forall i, j | 0 <= i < |n1| && 0 <= j < |n2| ensures n1[i] != n2[j] {
      assert (n1 + n2)[i] == n1[i] && (n1 + n2)[|n1| + j] == n2[j];
    }
    forall i, j | 0 <= i < j < |n2| ensures n2[i] != n2[j] {
      assert (n1 + n2)[|n1| + i] == n2[i] && (n1 + n2)[|n1| + j] == n2[j];
    }
    forall i, j | 0 <= i < j < |n1| ensures n1[i] != n1[j] {
      assert (n1 + n2)[i] == n1[i] && (n1 + n2)[j] == n1[j];
    }
  }

  lemma DistinctConcat(a: seq<Id>, b: seq<Id>, path: Path, o1: nat, n1: seq<string>, o2: nat, n2: seq<string>)
    requires DistinctPaths(a) && DistinctPaths(b)
    requires Under(a, path, o1, n1) && Under(b, path, o2, n2)
    requires o1 + o2 <= 1 && forall n :: n in n1 ==> n !in n2
    ensures DistinctPaths(a + b)
  {
    forall i, j | 0 <= i < |a| && 0 <= j < |b| ensures a[i].path != b[j].path {
      if |a[i].path| > |path| && |b[j].path| > |path| {
        assert a[i].path[|path|] in n1 && b[j].path[|path|] in n2;
      }
    }
  }

  lemma {:induction false} BodyDistinct(path: Path, dev: bool, b: Body)
    requires WellNamedBody(b) && BodyOwn(dev, b) <= 1 && DistinctNames(BodyNames(dev, b))
    ensures DistinctPaths(BodyIds(path, dev, b))
    decreases b, 0
  {
    match b
    case Module(n, items) => IdsDistinct(path + [n], items);
    case Block(items) => IdsDistinct(path, items);
    case _ =>
  }

  lemma {:induction false} IdsDistinct(path: Path, items: seq<Item>)
    requires WellNamed(items)
    ensures DistinctPaths(Ids(path, items))
    decreases items, 2
  {
    if items != [] {
      var rest := items[1..];
      if items[0].Node? {
        var dev, body := DevOnly(items[0].above), items[0].body;
        DistinctSplit(BodyNames(dev, body), ChildNames(rest));
        BodyDistinct(path, dev, body);
        IdsDistinct(path, rest);
        BodyUnder(path, dev, body);
        IdsUnder(path, rest);
        DistinctConcat(BodyIds(path, dev, body), Ids(path, rest), path,
                       BodyOwn(dev, body), BodyNames(dev, body), Own(rest), ChildNames(rest));
      } else {
        assert [] + ChildNames(rest) == ChildNames(rest);
        IdsDistinct(path, rest);
        assert [] + Ids(path, rest) == Ids(path, rest);
      }
    }
  }

  /** The round trip for well-named trees: parsing the printed tree succeeds and maps a path to an
      address exactly when the tree declares that production id there. */
  lemma WellNamedRoundTrip(items: seq<Item>)
    requires WellNamed(items) && !Stray(items)
    ensures Parse(Print(items)).Ok?
    ensures Parse(Print(items)).value.total == Count(items)
    ensures forall id: Id :: id in Ids([], items) <==>
              id.path in Parse(Print(items)).value.addressOf &&
              Parse(Print(items)).value.addressOf[id.path] == id.address
  {
    var ids := Ids([], items);
    ParsePrinted(items);
    IdsDistinct([], items);
    RepeatedExactly(ids);
    forall id: Id ensures id in ids <==> id.path in AddressMap(ids) && AddressMap(ids)[id.path] == id.address {
      MapIsExact(ids, id);
    }
  }

  // ----- joined names -----

  /** The dictionary key of a path: its names joined by "::". */
  function Join(path: Path): string {
    if path == [] then "" else if |path| == 1 then path[0] else path[0] + "::" + Join(path[1..])
  }

  /** Module names are words: non-empty and free of colons. */
  predicate Words(path: Path) {
    forall i :: 0 <= i < |path| ==> path[i] != "" && ':' !in path[i]
  }

  lemma FirstColon(path: Path, k: nat)
    requires Words(path) && path != []
    ensures |Join(path)| >= |path[0]|
    ensures k < |path[0]| ==> Join(path)[k] != ':' && Join(path)[k] == path[0][k]
    ensures |path| > 1 ==> |Join(path)| > |path[0]| + 2 && Join(path)[|path[0]|] == ':'
    ensures |path| > 1 ==> Join(path)[|path[0]| + 2..] == Join(path[1..])
    ensures |path| == 1 ==> Join(path) == path[0]
  {
    if |path| > 1 {
      var tail := path[1..];
      assert Words(tail) by {
        forall i | 0 <= i < |tail| ensures tail[i] != "" && ':' !in tail[i] {
          assert tail[i] == path[i + 1];
        }
      }
      assert |Join(tail)| >= |tail[0]| > 0;
      assert Join(path) == path[0] + "::" + Join(tail);
    }
  }

  /** Different paths have different joined names, so keying the dictionary by the joined name
      merges nothing. */
  lemma {:induction false} JoinInjective(a: Path, b: Path)
    requires Words(a) && Words(b) && a != [] && b != []
    requires Join(a) == Join(b)
    ensures a == b
  {
    FirstColon(a, 0);
    FirstColon(b, 0);
    SameHead(a, b);
    SameHead(b, a);
    assert |a[0]| == |b[0]|;
    forall k | 0 <= k < |a[0]| ensures a[0][k] == b[0][k] {
      FirstColon(a, k);
      FirstColon(b, k);
    }
    assert a[0] == b[0];
    if |a| > 1 && |b| > 1 {
      JoinInjective(a[1..], b[1..]);
    }
    assert a == [a[0]] + a[1..] && b == [b[0]] + b[1..];
  }

  lemma SameHead(a: Path, b: Path)
    requires Words(a) && Words(b) && a != [] && b != [] && Join(a) == Join(b)
    ensures |a[0]| <= |b[0]|
    ensures |a| == 1 ==> |b| == 1
  {
    FirstColon(a, 0);
    FirstColon(b, 0);
  }

  // ----- grouping by address -----

  /** A catalog entry: the first module with an address, and the others that share it. */
  datatype Gate = Gate(name: string, address: string, shared: seq<string>)

  /** The listed paths that have a given address, in order. */
  function WithAddress(paths: seq<string>, addressOf: map<string, string>, a: string): seq<string> {
    if paths == [] then []
    else
      var p := paths[|paths| - 1];
      WithAddress(paths[..|paths| - 1], addressOf, a) + if p in addressOf && addressOf[p] == a then [p] else []
  }

  predicate Covered(gates: seq<Gate>, a: string) {
    exists g :: 0 <= g < |gates| && gates[g].address == a
  }

  /** Entries list exactly the paths with their address, and only covered addresses have any. */
  ghost predicate Lists(gates: seq<Gate>, paths: seq<string>, addressOf: map<string, string>) {
    && (forall g :: 0 <= g < |gates| ==>
            [gates[g].name] + gates[g].shared == WithAddress(paths, addressOf, gates[g].address))
    && (forall a :: !Covered(gates, a) ==> WithAddress(paths, addressOf, a) == [])
  }

  ghost predicate DistinctAddresses(gates: seq<Gate>) {
    forall g, h :: 0 <= g < h < |gates| ==> gates[g].address != gates[h].address
  }

  /** Any strict order on names, as `sorted` uses. */
  type Order = (string, string) -> bool

  /** Entries come in the order of their names, and each name is one of the listed paths. */
  ghost predicate NamesSorted(gates: seq<Gate>, paths: seq<string>, less: Order) {
    && (forall g, h :: 0 <= g < h < |gates| ==> less(gates[g].name, gates[h].name))
    && (forall g :: 0 <= g < |gates| ==> gates[g].name in paths)
  }

  ghost predicate Sorted(paths: seq<string>, less: Order) {
    forall i, j :: 0 <= i < j < |paths| ==> less(paths[i], paths[j])
  }

  method Place(gates: seq<Gate>, p: string, a: string) returns (r: seq<Gate>)
    requires DistinctAddresses(gates)
    ensures if Covered(gates, a) then
              |r| == |gates| && forall g :: 0 <= g < |gates| ==>
                r[g] == if gates[g].address == a then gates[g].(shared := gates[g].shared + [p]) else gates[g]
            else r == gates + [Gate(p, a, [])]
  {
    var g := 0;
    while g < |gates| && gates[g].address != a
      invariant g <= |gates|
      invariant forall h :: 0 <= h < g ==> gates[h].address != a
    {
      g := g + 1;
    }
    if g == |gates| {
      r := gates + [Gate(p, a, [])];
    } else {
      r := gates[g := gates[g].(shared := gates[g].shared + [p])];
    }
  }

  lemma PlacedLists(gates: seq<Gate>, r: seq<Gate>, paths: seq<string>, p: string, addressOf: map<string, string>)
    requires p in addressOf && Lists(gates, paths, addressOf)
    requires var a := addressOf[p];
             if Covered(gates, a) then
               |r| == |gates| && forall g :: 0 <= g < |gates| ==>
                 r[g] == if gates[g].address == a then gates[g].(shared := gates[g].shared + [p]) else gates[g]
             else r == gates + [Gate(p, a, [])]
    ensures Lists(r, paths + [p], addressOf)
  {
    assert (paths + [p])[..|paths|] == paths;
    forall b ensures Covered(gates, b) || b == addressOf[p] ==> Covered(r, b) {
      if Covered(gates, b) {
        var g :| 0 <= g < |gates| && gates[g].address == b;
        assert r[g].address == b;
      } else if b == addressOf[p] {
        assert r[|gates|].address == b;
      }
    }
  }

  lemma PlacedSorted(gates: seq<Gate>, r: seq<Gate>, paths: seq<string>, p: string, a: string, less: Order)
    requires NamesSorted(gates, paths, less) && DistinctAddresses(gates)
    requires forall q :: q in paths ==> less(q, p)
    requires if Covered(gates, a) then
               |r| == |gates| && forall g :: 0 <= g < |gates| ==>
                 r[g] == if gates[g].address == a then gates[g].(shared := gates[g].shared + [p]) else gates[g]
             else r == gates + [Gate(p, a, [])]
    ensures DistinctAddresses(r)
    ensures NamesSorted(r, paths + [p], less)
  {
    if !Covered(gates, a) {
      assert forall g :: 0 <= g < |gates| ==> gates[g].address != a;
    }
  }

  /** The grouping loop over the registered paths in sorted order: one entry per address, named after
      the first path with it and listing every path with it. The entries come out in the order of
      their names, so the final sort by name moves nothing. */
  method GroupByAddress(paths: seq<string>, addressOf: map<string, string>, ghost less: Order) returns (gates: seq<Gate>)
    requires forall i :: 0 <= i < |paths| ==> paths[i] in addressOf
    requires Sorted(paths, less)
    ensures DistinctAddresses(gates)
    ensures Lists(gates, paths, addressOf)
    ensures NamesSorted(gates, paths, less)
  {
    gates := [];
    for i := 0 to |paths|
      invariant DistinctAddresses(gates)
      invariant Lists(gates, paths[..i], addressOf)
      invariant NamesSorted(gates, paths[..i], less)
    {
      var p := paths[i];
      assert paths[..i + 1] == paths[..i] + [p];
      var placed := Place(gates, p, addressOf[p]);
      PlacedLists(gates, placed, paths[..i], p, addressOf);
      PlacedSorted(gates, placed, paths[..i], p, addressOf[p], less);
      gates := placed;
    }
    assert paths[..|paths|] == paths;
  }
}
