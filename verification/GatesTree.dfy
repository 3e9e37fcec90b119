/** Module trees, their printed form, and what `parse_modules` recovers from it
    (internal/gates/gen/gen.py). */
module GatesTree {
  import opened Types
  import opened GatesParser

  /** A line allowed between an item and the attributes above it. */
  datatype Above = Cfg(text: CfgText) | Attribute | Gap

  /** An item with the attribute and blank lines above it, or such a line on its own (no cfg). */
  datatype Item = Node(above: seq<Above>, body: Body) | Loose(blank: bool)

  datatype Body =
    | Declare(address: string)
    | Module(name: string, items: seq<Item>)
    | OneLine(name: string, address: string)
    | Block(items: seq<Item>)
    | Statement(braces: nat)

  // ----- printing, one construct per line -----

  function PrintAbove(a: Above): Line {
    match a
    case Cfg(text) => Line(None, None, CfgLine(text), 0, 0)
    case Attribute => Line(None, None, AttributeLine, 0, 0)
    case Gap => Line(None, None, BlankLine, 0, 0)
  }

  function PrintAll(above: seq<Above>): seq<Line> {
    seq(|above|, i requires 0 <= i < |above| => PrintAbove(above[i]))
  }

  const CLOSE: Line := Line(None, None, CodeLine, 0, 1)

  function PrintBody(b: Body): seq<Line>
    decreases b, 0
  {
    match b
    case Declare(a) => [Line(None, Some(a), CodeLine, 0, 0)]
    case Module(n, items) => [Line(Some(n), None, CodeLine, 1, 0)] + Print(items) + [CLOSE]
    case OneLine(n, a) => [Line(Some(n), Some(a), CodeLine, 1, 1)]
    case Block(items) => [Line(None, None, CodeLine, 1, 0)] + Print(items) + [CLOSE]
    case Statement(k) => [Line(None, None, CodeLine, k, k)]
  }

  function PrintItem(it: Item): seq<Line>
    decreases it, 1
  {
    match it
    case Loose(blank) => [PrintAbove(if blank then Gap else Attribute)]
    case Node(above, body) => PrintAll(above) + PrintBody(body)
  }

  function Print(items: seq<Item>): seq<Line>
    decreases items, 2
  {
    if items == [] then [] else PrintItem(items[0]) + Print(items[1..])
  }

  // ----- meaning -----

  /** The cfg in force below a run of attribute and blank lines: the last one wins. */
  function LastCfg(above: seq<Above>): Option<CfgText> {
    if above == [] then None
    else
      match above[|above| - 1]
      case Cfg(text) => Some(text)
      case _ => LastCfg(above[..|above| - 1])
  }

  predicate DevOnly(above: seq<Above>) {
    LastCfg(above) == Some(DevContextOnly)
  }

  /** The production ids of a body under a path, in source order. A dev-only cfg drops the id of
      the line right below it; it does not reach into a module or block it stands above. */
  function BodyIds(path: Path, dev: bool, b: Body): seq<Id>
    decreases b, 0
  {
    match b
    case Declare(a) => if dev then [] else [Id(path, a)]
    case Module(n, items) => Ids(path + [n], items)
    case OneLine(n, a) => if dev then [] else [Id(path + [n], a)]
    case Block(items) => Ids(path, items)
    case Statement(_) => []
  }

  function ItemIds(path: Path, it: Item): seq<Id>
    decreases it, 1
  {
    if it.Node? then BodyIds(path, DevOnly(it.above), it.body) else []
  }

  function Ids(path: Path, items: seq<Item>): seq<Id>
    decreases items, 2
  {
    if items == [] then [] else ItemIds(path, items[0]) + Ids(path, items[1..])
  }

  function BodyCount(b: Body): nat
    decreases b, 0
  {
    match b
    case Declare(_) => 1
    case Module(_, items) => Count(items)
    case OneLine(_, _) => 1
    case Block(items) => Count(items)
    case Statement(_) => 0
  }

  /** The number of declarations, dev-only ones included. */
  function Count(items: seq<Item>): nat
    decreases items, 2
  {
    if items == [] then 0
    else (if items[0].Node? then BodyCount(items[0].body) else 0) + Count(items[1..])
  }

  /** Some id is declared outside every module. */
  predicate Stray(items: seq<Item>)
    decreases items, 2
  {
    items != [] && ((items[0].Node? && StrayBody(items[0].body)) || Stray(items[1..]))
  }

  predicate StrayBody(b: Body)
    decreases b, 0
  {
    match b
    case Declare(_) => true
    case Block(items) => Stray(items)
    case _ => false
  }

  // ----- parsing what was printed -----

  lemma {:induction false} StepsAppend(p: Parser, a: seq<Line>, b: seq<Line>)
    ensures Steps(p, a + b) == if Steps(p, a).Err? then Steps(p, a) else Steps(Steps(p, a).value, b)
    decreases a
  {
    if a == [] {
      assert [] + b == b;
    } else if Step(p, a[0]).Ok? {
      assert (a + b)[1..] == a[1..] + b;
      StepsAppend(Step(p, a[0]).value, a[1..], b);
    }
  }

  /** Attribute and blank lines change nothing but the pending cfg. */
  lemma {:induction false} StepsAbove(p: Parser, above: seq<Above>)
    requires StackOk(p)
    ensures Steps(p, PrintAll(above)) ==
            Ok(p.(pending := if LastCfg(above).Some? then LastCfg(above) else p.pending))
  {
    if above != [] {
      var rest, a := above[..|above| - 1], above[|above| - 1];
      var q := p.(pending := if LastCfg(rest).Some? then LastCfg(rest) else p.pending);
      StepsAbove(p, rest);
      OneAbove(q, a);
      OneMore(p, PrintAll(rest), q, PrintAbove(a));
      assert PrintAll(above) == PrintAll(rest) + [PrintAbove(a)];
    }
  }

  lemma OneMore(p: Parser, ls: seq<Line>, q: Parser, l: Line)
    requires Steps(p, ls) == Ok(q)
    ensures Steps(p, ls + [l]) == Step(q, l)
  {
    StepsSnoc(p, ls, l);
  }

  lemma OneAbove(p: Parser, a: Above)
    requires StackOk(p)
    ensures Step(p, PrintAbove(a)) == Ok(if a.Cfg? then p.(pending := Some(a.text)) else p)
  {
    TopStays(p);
  }

  lemma TopStays(p: Parser)
    requires StackOk(p)
    ensures PopTo(p.stack, p.depth) == p.stack
  {
  }

  /** Where parsing printed items from `p` must lead: the ids and the count are added and nothing
      else moves, or the parse fails because an id stands outside every module. */
  predicate LeadsTo(p: Parser, r: Result<Parser, ParseError>, stray: bool, ids: seq<Id>, count: nat) {
    match r
    case Err(e) => e == DeclareOutsideModule && p.stack == [] && stray
    case Ok(q) =>
      && !(p.stack == [] && stray)
      && q.depth == p.depth && q.stack == p.stack
      && q.ids == p.ids + ids && q.total == p.total + count
      && q.pending != Some(DevContextOnly)
  }

  predicate Leads(p: Parser, ls: seq<Line>, stray: bool, ids: seq<Id>, count: nat) {
    LeadsTo(p, Steps(p, ls), stray, ids, count)
  }

  lemma LeadsOn(p: Parser, r1: Result<Parser, ParseError>, r2: Result<Parser, ParseError>,
                s1: bool, s2: bool, i1: seq<Id>, i2: seq<Id>, c1: nat, c2: nat)
    requires LeadsTo(p, r1, s1, i1, c1)
    requires r1.Ok? ==> LeadsTo(r1.value, r2, s2, i2, c2)
    ensures LeadsTo(p, if r1.Err? then r1 else r2, s1 || s2, i1 + i2, c1 + c2)
  {
    assert p.ids + i1 + i2 == p.ids + (i1 + i2);
  }

  /** A line that leaves the depth alone leaves the stack alone, the module it opens included. */
  lemma FlatStack(p: Parser, line: Line)
    requires StackOk(p)
    ensures PopTo(Enter(p, line), p.depth) == p.stack
  {
    TopStays(p);
    if line.enters.Some? {
      var stack := Enter(p, line);
      assert stack[..|stack| - 1] == p.stack;
      assert PopTo(stack, p.depth) == PopTo(p.stack, p.depth);
    }
  }

  lemma FlatStep(p: Parser, line: Line)
    requires StackOk(p) && line.opens == line.closes && line.kind == CodeLine
    requires line.declared.None? || Enter(p, line) != []
    ensures Steps(p, [line]) ==
            Ok(Parser(p.depth, p.stack, IdsAfter(p, line), if line.declared.Some? then p.total + 1 else p.total, None))
  {
    FlatStack(p, line);
    assert Steps(p, [line]) == Step(p, line);
  }

  lemma OneLineBody(p: Parser, b: Body, dev: bool)
    requires StackOk(p) && (p.pending == Some(DevContextOnly) <==> dev)
    requires b.Declare? || b.OneLine? || b.Statement?
    ensures Leads(p, PrintBody(b), StrayBody(b), BodyIds(Names(p.stack), dev, b), BodyCount(b))
  {
    var line := PrintBody(b)[0];
    assert PrintBody(b) == [line];
    if b.Declare? && p.stack == [] {
      assert Steps(p, [line]) == Step(p, line);
    } else {
      FlatStep(p, line);
      if b.OneLine? {
        assert Names(Enter(p, line)) == Names(p.stack) + [b.name];
      }
      assert p.ids + [] == p.ids;
    }
  }

  /** Entering a nested body and closing it again brings the parser back. */
  lemma NestedLeads(p: Parser, open: Line, p1: Parser, inner: seq<Line>, stray1: bool, stray: bool, ids: seq<Id>, count: nat)
    requires StackOk(p) && Step(p, open) == Ok(p1)
    requires p1 == p.(depth := p.depth + 1, stack := p1.stack, pending := None)
    requires || p1.stack == p.stack
             || (|p1.stack| == |p.stack| + 1 && p1.stack[..|p.stack|] == p.stack && p1.stack[|p.stack|].body == p.depth + 1)
    requires p.stack == [] && stray <==> p1.stack == [] && stray1
    requires Leads(p1, inner, stray1, ids, count)
    ensures Leads(p, [open] + (inner + [CLOSE]), stray, ids, count)
  {
    StepsAppend(p, [open], inner + [CLOSE]);
    assert Steps(p, [open]) == Step(p, open);
    StepsAppend(p1, inner, [CLOSE]);
    if Steps(p1, inner).Ok? {
      Closing(p, p1.stack, Steps(p1, inner).value);
    }
  }

  /** The parser just inside a module or block. */
  function Inside(p: Parser, b: Body): Parser
    requires b.Module? || b.Block?
  {
    p.(depth := p.depth + 1,
       stack := if b.Module? then p.stack + [Frame(b.name, p.depth + 1)] else p.stack,
       pending := None)
  }

  lemma Opening(p: Parser, b: Body)
    requires StackOk(p) && (b.Module? || b.Block?)
    ensures Step(p, PrintBody(b)[0]) == Ok(Inside(p, b))
    ensures StackOk(Inside(p, b))
    ensures Names(Inside(p, b).stack) == if b.Module? then Names(p.stack) + [b.name] else Names(p.stack)
  {
    OpenLine(p, if b.Module? then Some(b.name) else None);
  }

  lemma OpenLine(p: Parser, name: Option<string>)
    requires StackOk(p)
    ensures var line := Line(name, None, CodeLine, 1, 0);
            var stack := if name.Some? then p.stack + [Frame(name.value, p.depth + 1)] else p.stack;
            Step(p, line) == Ok(p.(depth := p.depth + 1, stack := stack, pending := None))
  {
    var line := Line(name, None, CodeLine, 1, 0);
    var stack := Enter(p, line);
    assert stack == [] || stack[|stack| - 1].body <= p.depth + 1;
    assert PopTo(stack, p.depth + 1) == stack;
  }

  lemma NestedBodyLeads(p: Parser, b: Body, ids: seq<Id>, count: nat)
    requires StackOk(p) && (b.Module? || b.Block?)
    requires Leads(Inside(p, b), Print(b.items), Stray(b.items), ids, count)
    ensures Leads(p, PrintBody(b), StrayBody(b), ids, count)
  {
    var open, inner, p1 := PrintBody(b)[0], Print(b.items), Inside(p, b);
    Opening(p, b);
    if b.Module? {
      assert p1.stack[..|p.stack|] == p.stack && p1.stack != [];
    } else {
      assert p1.stack == p.stack;
    }
    NestedLeads(p, open, p1, inner, Stray(b.items), StrayBody(b), ids, count);
    PrintedBody(b);
  }

  lemma PrintedBody(b: Body)
    requires b.Module? || b.Block?
    ensures PrintBody(b) == [PrintBody(b)[0]] + (Print(b.items) + [CLOSE])
  {
  }

  lemma {:induction false} NestedBody(p: Parser, b: Body, dev: bool)
    requires StackOk(p) && (b.Module? || b.Block?)
    ensures Leads(p, PrintBody(b), StrayBody(b), BodyIds(Names(p.stack), dev, b), BodyCount(b))
    decreases b, 0
  {
    var p1 := Inside(p, b);
    Opening(p, b);
    PrintedParses(p1, b.items);
    NestedBodyLeads(p, b, Ids(Names(p1.stack), b.items), Count(b.items));
  }

  lemma Closing(p: Parser, stack: seq<Frame>, q: Parser)
    requires StackOk(p) && q.depth == p.depth + 1 && q.stack == stack
    requires stack == p.stack || (|stack| == |p.stack| + 1 && stack[..|p.stack|] == p.stack && stack[|p.stack|].body == p.depth + 1)
    ensures Steps(q, [CLOSE]) == Ok(q.(depth := p.depth, stack := p.stack, pending := None))
  {
    TopStays(p);
    assert Steps(q, [CLOSE]) == Step(q, CLOSE);
    if stack != p.stack {
      assert PopTo(stack, p.depth) == PopTo(p.stack, p.depth);
    }
  }

  lemma LooseParses(p: Parser, blank: bool)
    requires StackOk(p) && p.pending != Some(DevContextOnly)
    ensures Leads(p, [PrintAbove(if blank then Gap else Attribute)], false, [], 0)
  {
    TopStays(p);
    var line := PrintAbove(if blank then Gap else Attribute);
    assert Steps(p, [line]) == Step(p, line);
    assert p.ids + [] == p.ids;
  }

  lemma {:induction false} BodyParses(p: Parser, b: Body, dev: bool)
    requires StackOk(p) && (p.pending == Some(DevContextOnly) <==> dev)
    ensures Leads(p, PrintBody(b), StrayBody(b), BodyIds(Names(p.stack), dev, b), BodyCount(b))
    decreases b, 1
  {
    if b.Module? || b.Block? {
      NestedBody(p, b, dev);
    } else {
      OneLineBody(p, b, dev);
    }
  }

  lemma LeadsPastAbove(p: Parser, above: seq<Above>, body: seq<Line>, stray: bool, ids: seq<Id>, count: nat)
    requires StackOk(p)
    requires Leads(p.(pending := if LastCfg(above).Some? then LastCfg(above) else p.pending), body, stray, ids, count)
    ensures Leads(p, PrintAll(above) + body, stray, ids, count)
  {
    StepsAbove(p, above);
    StepsAppend(p, PrintAll(above), body);
  }

  lemma {:induction false} PrintedItemParses(p: Parser, it: Item)
    requires StackOk(p) && p.pending != Some(DevContextOnly)
    ensures Leads(p, PrintItem(it), it.Node? && StrayBody(it.body), ItemIds(Names(p.stack), it),
                  if it.Node? then BodyCount(it.body) else 0)
    decreases it, 1
  {
    match it
    case Loose(blank) => LooseParses(p, blank);
    case Node(above, body) =>
      var p1 := p.(pending := if LastCfg(above).Some? then LastCfg(above) else p.pending);
      BodyParses(p1, body, DevOnly(above));
      LeadsPastAbove(p, above, PrintBody(body), StrayBody(body), BodyIds(Names(p.stack), DevOnly(above), body), BodyCount(body));
  }

  /** Parsing printed items from inside any module logs exactly their production ids under the
      current path, counts every declaration, and ends where it began; at the top level it fails
      exactly when an id is declared outside every module. */
  lemma {:induction false} PrintedParses(p: Parser, items: seq<Item>)
    requires StackOk(p) && p.pending != Some(DevContextOnly)
    ensures Leads(p, Print(items), Stray(items), Ids(Names(p.stack), items), Count(items))
    decreases items, 2
  {
    if items == [] {
      assert p.ids + [] == p.ids;
    } else {
      var first := PrintItem(items[0]);
      PrintedItemParses(p, items[0]);
      if Steps(p, first).Ok? {
        PrintedParses(Steps(p, first).value, items[1..]);
      }
      var r1 := Steps(p, first);
      var r2 := if r1.Ok? then Steps(r1.value, Print(items[1..])) else r1;
      StepsAppend(p, first, Print(items[1..]));
      LeadsOn(p, r1, r2,
              items[0].Node? && StrayBody(items[0].body), Stray(items[1..]),
              ItemIds(Names(p.stack), items[0]), Ids(Names(p.stack), items[1..]),
              if items[0].Node? then BodyCount(items[0].body) else 0, Count(items[1..]));
    }
  }

  /** The round trip, for every tree: an id outside all modules is an error; otherwise a path with
      several production ids is an error naming the first such path; otherwise the result is
      exactly the map from full path to production address and the number of declarations. */
  lemma ParsePrinted(items: seq<Item>)
    ensures var ids := Ids([], items);
            Parse(Print(items)) ==
            if Stray(items) then Err(DeclareOutsideModule)
            else match FirstRepeated(ids, FirstOccurrences(Paths(ids)))
                 case Some(path) => Err(RepeatedId(path))
                 case None => Ok(Catalog(AddressMap(ids), Count(items)))
  {
    PrintedParses(START, items);
    assert Names(START.stack) == [];
    if !Stray(items) {
      FinishPrinted(Steps(START, Print(items)).value, Ids([], items), Count(items));
    }
  }

  lemma FinishPrinted(q: Parser, ids: seq<Id>, count: nat)
    requires q.depth == 0 && q.ids == START.ids + ids && q.total == START.total + count
    ensures Finish(q) == match FirstRepeated(ids, FirstOccurrences(Paths(ids)))
                         case Some(path) => Err(RepeatedId(path))
                         case None => Ok(Catalog(AddressMap(ids), count))
  {
    assert q.ids == ids;
  }
}
