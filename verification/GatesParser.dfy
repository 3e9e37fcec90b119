/** The feature-gate generator's module parser (internal/gates/gen/gen.py, `parse_modules`): a
    line-driven parser with a brace depth, a module stack and a pending cfg attribute. A line is
    represented by what the parser extracts from its text. */
module GatesParser {
  import opened Types

  type Path = seq<string>

  /** The text of a cfg attribute; the dev-only feature gate is told apart from every other text. */
  datatype CfgText = DevContextOnly | OtherCfg(text: string)

  /** The attribute part of a line: a cfg attribute, another attribute, nothing, or code. */
  datatype Kind = CfgLine(text: CfgText) | AttributeLine | BlankLine | CodeLine

  /** The module a line opens, the address it declares, its kind, and its structural braces. */
  datatype Line = Line(enters: Option<string>, declared: Option<string>, kind: Kind, opens: nat, closes: nat)

  /** A module on the stack, with the depth of its body. */
  datatype Frame = Frame(name: string, body: int)

  datatype Id = Id(path: Path, address: string)

  /** `ids` logs the production ids in source order; `total` counts every declaration. */
  datatype Parser = Parser(depth: int, stack: seq<Frame>, ids: seq<Id>, total: nat, pending: Option<CfgText>)

  datatype ParseError = DeclareOutsideModule | UnbalancedBraces(depth: int) | RepeatedId(path: Path)

  datatype Catalog = Catalog(addressOf: map<Path, string>, total: nat)

  // ----- one line -----

  function Names(stack: seq<Frame>): (p: Path)
    ensures |p| == |stack|
  {
    seq(|stack|, i requires 0 <= i < |stack| => stack[i].name)
  }

  /** Leaves every module whose body is deeper than the current depth. */
  function PopTo(stack: seq<Frame>, depth: int): seq<Frame> {
    if stack != [] && depth < stack[|stack| - 1].body then PopTo(stack[..|stack| - 1], depth) else stack
  }

  function Pending(before: Option<CfgText>, k: Kind): Option<CfgText> {
    match k
    case CfgLine(text) => Some(text)
    case CodeLine => None
    case _ => before
  }

  function Enter(p: Parser, l: Line): seq<Frame> {
    if l.enters.Some? then p.stack + [Frame(l.enters.value, p.depth + 1)] else p.stack
  }

  /** The id log after a line: a declaration is kept unless the dev-only cfg is pending. */
  function IdsAfter(p: Parser, l: Line): seq<Id> {
    if l.declared.Some? && p.pending != Some(DevContextOnly)
    then p.ids + [Id(Names(Enter(p, l)), l.declared.value)] else p.ids
  }

  function Step(p: Parser, l: Line): Result<Parser, ParseError> {
    if l.declared.Some? && Enter(p, l) == [] then Err(DeclareOutsideModule)
    else
      var depth := p.depth + l.opens - l.closes;
      Ok(Parser(
         depth,
         PopTo(Enter(p, l), depth),
         IdsAfter(p, l),
         if l.declared.Some? then p.total + 1 else p.total,
         Pending(p.pending, l.kind)))
  }

  function Steps(p: Parser, ls: seq<Line>): Result<Parser, ParseError>
    decreases ls
  {
    if ls == [] then Ok(p)
    else
      var r := Step(p, ls[0]);
      if r.Err? then r else Steps(r.value, ls[1..])
  }

  const START: Parser := Parser(0, [], [], 0, None)

  // ----- the result -----

  function Paths(ids: seq<Id>): seq<Path> {
    seq(|ids|, i requires 0 <= i < |ids| => ids[i].path)
  }

  /** The addresses logged for one path, in order. */
  function AddressesOf(ids: seq<Id>, path: Path): seq<string> {
    if ids == [] then []
    else
      var id := ids[|ids| - 1];
      AddressesOf(ids[..|ids| - 1], path) + if id.path == path then [id.address] else []
  }

  /** The first path, in order of first appearance, that was given more than one address. */
  function FirstRepeated(ids: seq<Id>, order: seq<Path>): Option<Path> {
    if order == [] then None
    else if |AddressesOf(ids, order[0])| != 1 then Some(order[0])
    else FirstRepeated(ids, order[1..])
  }

  function AddressMap(ids: seq<Id>): map<Path, string> {
    if ids == [] then map[]
    else AddressMap(ids[..|ids| - 1])[ids[|ids| - 1].path := ids[|ids| - 1].address]
  }

  function Finish(p: Parser): Result<Catalog, ParseError> {
    if p.depth != 0 then Err(UnbalancedBraces(p.depth))
    else
      match FirstRepeated(p.ids, FirstOccurrences(Paths(p.ids)))
      case Some(path) => Err(RepeatedId(path))
      case None => Ok(Catalog(AddressMap(p.ids), p.total))
  }

  function Parse(ls: seq<Line>): Result<Catalog, ParseError> {
    var r := Steps(START, ls);
    if r.Err? then Err(r.error) else Finish(r.value)
  }

  // ----- the stack -----

  /** Bodies get strictly deeper up the stack, and the top one encloses the current depth. */
  predicate StackOk(p: Parser) {
    && (forall i, j :: 0 <= i < j < |p.stack| ==> p.stack[i].body < p.stack[j].body)
    && (p.stack != [] ==> p.stack[|p.stack| - 1].body <= p.depth)
  }

  lemma {:induction false} PopToPrefix(stack: seq<Frame>, depth: int)
    ensures PopTo(stack, depth) <= stack
    ensures PopTo(stack, depth) != [] ==> PopTo(stack, depth)[|PopTo(stack, depth)| - 1].body <= depth
  {
    if stack != [] && depth < stack[|stack| - 1].body {
      PopToPrefix(stack[..|stack| - 1], depth);
    }
  }

  lemma StepKeepsStack(p: Parser, l: Line)
    requires StackOk(p) && Step(p, l).Ok?
    ensures StackOk(Step(p, l).value)
  {
    PopToPrefix(Enter(p, l), p.depth + l.opens - l.closes);
  }

  /** After every line of any input at all, bodies are strictly increasing and at most the current
      depth. */
  lemma {:induction false} StackAlwaysOk(p: Parser, ls: seq<Line>)
    requires StackOk(p) && Steps(p, ls).Ok?
    ensures StackOk(Steps(p, ls).value)
    decreases ls
  {
    if ls != [] {
      StepKeepsStack(p, ls[0]);
      StackAlwaysOk(Step(p, ls[0]).value, ls[1..]);
    }
  }

  // ----- what any input leaves behind -----

  /** Opening braces minus closing braces. */
  function Net(ls: seq<Line>): int {
    if ls == [] then 0 else ls[0].opens - ls[0].closes + Net(ls[1..])
  }

  function Declared(ls: seq<Line>): nat {
    if ls == [] then 0 else (if ls[0].declared.Some? then 1 else 0) + Declared(ls[1..])
  }

  lemma {:induction false} StepsCount(p: Parser, ls: seq<Line>)
    ensures Steps(p, ls).Ok? ==> Steps(p, ls).value.depth == p.depth + Net(ls)
                                 && Steps(p, ls).value.total == p.total + Declared(ls)
    ensures Steps(p, ls).Err? ==> Steps(p, ls).error == DeclareOutsideModule
    decreases ls
  {
    if ls != [] && Step(p, ls[0]).Ok? {
      StepsCount(Step(p, ls[0]).value, ls[1..]);
    }
  }

  /** Any input whose braces do not balance is refused, with the depth it ends at unless a
      declaration outside all modules comes first; a catalog counts every declaration, dev-only ones
      included. */
  lemma UnbalancedIsReported(ls: seq<Line>)
    ensures Net(ls) != 0 ==> Parse(ls) == Err(UnbalancedBraces(Net(ls))) || Parse(ls) == Err(DeclareOutsideModule)
    ensures Net(ls) == 0 ==> Parse(ls).Ok? || !Parse(ls).error.UnbalancedBraces?
    ensures Parse(ls).Ok? ==> Parse(ls).value.total == Declared(ls)
  {
    StepsCount(START, ls);
  }

  // ----- the imperative parser -----

  lemma {:induction false} StepsSnoc(p: Parser, ls: seq<Line>, l: Line)
    ensures Steps(p, ls + [l]) == if Steps(p, ls).Err? then Steps(p, ls) else Step(Steps(p, ls).value, l)
    decreases ls
  {
    if ls == [] {
      assert [] + [l] == [l];
    } else if Step(p, ls[0]).Ok? {
      assert (ls + [l])[1..] == ls[1..] + [l];
      StepsSnoc(Step(p, ls[0]).value, ls[1..], l);
    }
  }

  lemma {:induction false} StepsError(p: Parser, ls: seq<Line>, n: nat)
    requires n <= |ls| && Steps(p, ls[..n]).Err?
    ensures Steps(p, ls) == Steps(p, ls[..n])
    decreases ls
  {
    if n > 0 && Step(p, ls[0]).Ok? {
      assert ls[..n][1..] == ls[1..][..n - 1];
      StepsError(Step(p, ls[0]).value, ls[1..], n - 1);
    }
  }

  lemma AddressesSnoc(ids: seq<Id>, id: Id, path: Path)
    ensures AddressesOf(ids + [id], path) == AddressesOf(ids, path) + if id.path == path then [id.address] else []
  {
    assert (ids + [id])[..|ids|] == ids;
  }

  lemma OccurrencesSnoc(ids: seq<Id>, id: Id)
    ensures FirstOccurrences(Paths(ids + [id])) ==
            FirstOccurrences(Paths(ids)) + if id.path in Paths(ids) then [] else [id.path]
  {
    assert Paths(ids + [id]) == Paths(ids) + [id.path];
  }

  method LeaveModules(stack: seq<Frame>, depth: int) returns (left: seq<Frame>)
    ensures left == PopTo(stack, depth)
  {
    left := stack;
    while left != [] && depth < left[|left| - 1].body
      invariant PopTo(stack, depth) == PopTo(left, depth)
    {
      left := left[..|left| - 1];
    }
  }

  /** The parser's local variables; `decls` and `order` are the ordered dictionary of addresses. */
  datatype Locals = Locals(
    depth: int, stack: seq<Frame>, decls: map<Path, seq<string>>, order: seq<Path>, total: nat, pending: Option<CfgText>)

  ghost predicate Represents(v: Locals, p: Parser) {
    && p.depth == v.depth && p.stack == v.stack && p.total == v.total && p.pending == v.pending
    && DictionaryOf(p.ids, v.decls, v.order)
  }

  method ReadDeclaration(v: Locals, line: Line, stack: seq<Frame>, ghost p: Parser)
    returns (decls: map<Path, seq<string>>, order: seq<Path>)
    requires DictionaryOf(p.ids, v.decls, v.order) && v.pending == p.pending && stack == Enter(p, line)
    ensures DictionaryOf(IdsAfter(p, line), decls, order)
  {
    decls, order := v.decls, v.order;
    if line.declared.Some? && v.pending != Some(DevContextOnly) {
      decls, order := Declare(p.ids, decls, order, Names(stack), line.declared.value);
    }
  }

  /** The loop body. */
  method ReadLine(v: Locals, line: Line, ghost p: Parser) returns (r: Result<Locals, ParseError>)
    requires Represents(v, p)
    ensures match Step(p, line)
            case Ok(p') => r.Ok? && Represents(r.value, p')
            case Err(e) => r == Err(e)
  {
    var depth, stack, total, pending := v.depth, v.stack, v.total, v.pending;
    if line.enters.Some? {
      stack := stack + [Frame(line.enters.value, depth + 1)];
    }
    if line.declared.Some? {
      total := total + 1;
      if stack == [] {
        return Err(DeclareOutsideModule);
      }
    }
    var decls, order := ReadDeclaration(v, line, stack, p);
    match line.kind {
      case CfgLine(text) => pending := Some(text);
      case CodeLine => pending := None;
      case _ =>
    }
    depth := depth + line.opens - line.closes;
    stack := LeaveModules(stack, depth);
    r := Ok(Locals(depth, stack, decls, order, total, pending));
  }

  /** The loop over the lines and the final checks. */
  method ParseModules(ls: seq<Line>) returns (r: Result<Catalog, ParseError>)
    ensures r == Parse(ls)
  {
    var v := Locals(0, [], map[], [], 0, None);
    ghost var p := START;
    for i := 0 to |ls|
      invariant Steps(START, ls[..i]) == Ok(p)
      invariant Represents(v, p)
    {
      assert ls[..i + 1] == ls[..i] + [ls[i]];
      StepsSnoc(START, ls[..i], ls[i]);
      var next := ReadLine(v, ls[i], p);
      if next.Err? {
        StepsError(START, ls, i + 1);
        return Err(next.error);
      }
      v := next.value;
      p := Step(p, ls[i]).value;
    }
    assert ls[..|ls|] == ls;
    if v.depth != 0 {
      return Err(UnbalancedBraces(v.depth));
    }
    r := AddressTable(p.ids, v.decls, v.order, v.total);
  }

  /** The ordered dictionary holds exactly the logged ids. */
  ghost predicate DictionaryOf(ids: seq<Id>, decls: map<Path, seq<string>>, order: seq<Path>) {
    && order == FirstOccurrences(Paths(ids))
    && (forall p :: p in decls <==> p in order)
    && (forall p :: p in decls ==> decls[p] == AddressesOf(ids, p))
  }

  lemma {:induction false} NoAddresses(ids: seq<Id>, path: Path)
    ensures AddressesOf(ids, path) == [] <==> path !in Paths(ids)
  {
    if ids != [] {
      var rest := ids[..|ids| - 1];
      NoAddresses(rest, path);
      assert Paths(ids) == Paths(rest) + [ids[|ids| - 1].path];
    }
  }

  method Declare(ghost ids: seq<Id>, decls: map<Path, seq<string>>, order: seq<Path>, path: Path, address: string)
    returns (decls': map<Path, seq<string>>, order': seq<Path>)
    requires DictionaryOf(ids, decls, order)
    ensures DictionaryOf(ids + [Id(path, address)], decls', order')
  {
    decls', order' := decls, order;
    NoAddresses(ids, path);
    OccurrencesSnoc(ids, Id(path, address));
    if path !in decls {
      decls' := decls'[path := []];
      order' := order' + [path];
    }
    decls' := decls'[path := decls'[path] + [address]];
    forall p
      ensures AddressesOf(ids + [Id(path, address)], p) == AddressesOf(ids, p) + if p == path then [address] else []
    {
      AddressesSnoc(ids, Id(path, address), p);
    }
  }

  lemma {:induction false} FirstRepeatedAt(ids: seq<Id>, order: seq<Path>, i: nat)
    requires i <= |order|
    requires forall j :: 0 <= j < i ==> |AddressesOf(ids, order[j])| == 1
    ensures FirstRepeated(ids, order) == FirstRepeated(ids, order[i..])
  {
    if i > 0 {
      FirstRepeatedAt(ids, order[1..], i - 1);
      assert order[1..][i - 1..] == order[i..];
    }
  }

  lemma {:induction false} LastAddress(ids: seq<Id>, path: Path)
    requires path in Paths(ids)
    ensures path in AddressMap(ids) && AddressesOf(ids, path) != []
    ensures AddressMap(ids)[path] == AddressesOf(ids, path)[|AddressesOf(ids, path)| - 1]
  {
    var rest := ids[..|ids| - 1];
    assert Paths(ids) == Paths(rest) + [ids[|ids| - 1].path];
    if ids[|ids| - 1].path != path {
      LastAddress(rest, path);
    }
  }

  lemma {:induction false} MappedPaths(ids: seq<Id>, path: Path)
    ensures path in AddressMap(ids) <==> path in Paths(ids)
  {
    if ids != [] {
      var rest := ids[..|ids| - 1];
      MappedPaths(rest, path);
      assert Paths(ids) == Paths(rest) + [ids[|ids| - 1].path];
    }
  }

  /** A map that gives every listed path its only address is the address map. */
  lemma OnlyAddresses(ids: seq<Id>, addressOf: map<Path, string>)
    requires forall p :: p in addressOf <==> p in Paths(ids)
    requires forall p :: p in addressOf ==> AddressesOf(ids, p) == [addressOf[p]]
    ensures addressOf == AddressMap(ids)
  {
    forall p
      ensures p in addressOf <==> p in AddressMap(ids)
      ensures p in addressOf ==> addressOf[p] == AddressMap(ids)[p]
    {
      MappedPaths(ids, p);
      if p in Paths(ids) {
        LastAddress(ids, p);
      }
    }
  }

  method CheckAddresses(ghost ids: seq<Id>, decls: map<Path, seq<string>>, order: seq<Path>)
    returns (r: Result<map<Path, string>, ParseError>)
    requires forall i :: 0 <= i < |order| ==> order[i] in decls && decls[order[i]] == AddressesOf(ids, order[i])
    ensures r.Err? ==> FirstRepeated(ids, order).Some? && r.error == RepeatedId(FirstRepeated(ids, order).value)
    ensures r.Ok? ==> FirstRepeated(ids, order).None?
    ensures r.Ok? ==> forall p :: p in r.value <==> p in order
    ensures r.Ok? ==> forall p :: p in r.value ==> AddressesOf(ids, p) == [r.value[p]]
  {
    var addressOf: map<Path, string> := map[];
    for i := 0 to |order|
      invariant forall j :: 0 <= j < i ==> |AddressesOf(ids, order[j])| == 1
      invariant forall p :: p in addressOf <==> p in order[..i]
      invariant forall p :: p in addressOf ==> AddressesOf(ids, p) == [addressOf[p]]
    {
      var path := order[i];
      if |decls[path]| != 1 {
        FirstRepeatedAt(ids, order, i);
        return Err(RepeatedId(path));
      }
      addressOf := addressOf[path := decls[path][0]];
      assert order[..i + 1] == order[..i] + [path];
    }
    assert order[..|order|] == order;
    FirstRepeatedAt(ids, order, |order|);
    r := Ok(addressOf);
  }

  method AddressTable(ghost ids: seq<Id>, decls: map<Path, seq<string>>, order: seq<Path>, total: nat)
    returns (r: Result<Catalog, ParseError>)
    requires DictionaryOf(ids, decls, order)
    ensures r == match FirstRepeated(ids, FirstOccurrences(Paths(ids)))
                 case Some(path) => Err(RepeatedId(path))
                 case None => Ok(Catalog(AddressMap(ids), total))
  {
    assert forall i :: 0 <= i < |order| ==> order[i] in order;
    var checked := CheckAddresses(ids, decls, order);
    if checked.Err? {
      return Err(checked.error);
    }
    OnlyAddresses(ids, checked.value);
    r := Ok(Catalog(checked.value, total));
  }
}
