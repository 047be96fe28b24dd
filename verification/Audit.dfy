/**
  The static analyser of contract functions: one walk over the syntax tree that
  records external calls and state writes in order, and follows the results of
  divisions through `let` bindings into later multiplications. The walk is
  checked against an execution semantics and against full expansion of the
  bindings.
 */
module Audit {
  import opened Texts

  // ----- Syntax -------------------------------------------------------------

  /** Binary operators; the parsed tree counts `*=`, `/=` and the other compound assignments among them. */
  datatype BinOp = Mul | Div | And | Or | OtherOp | MulAssign | DivAssign | OtherAssign

  predicate Assigns(op: BinOp) {
    op == MulAssign || op == DivAssign || op == OtherAssign
  }

  /** `Typed` is a pattern with a type annotation, a node of its own in the parsed tree. */
  datatype Pattern = Ident(name: string) | Typed(name: string) | Destructuring(names: set<string>)

  /**
    Expressions and statements of a function body. `Wrap` stands for
    parentheses, groups and unary operators; `Compound` for every expression or
    block that evaluates its parts from left to right, an empty one for an
    absent part; `Assign` for `=`; `Match` for `match` and `if`, the branches of
    an `if` being unguarded arms; `MayExit` for `?`, `return` and `break`.
   */
  datatype Node =
    | Literal(isInt: bool)
    | Path(segments: seq<string>)
    | Wrap(inner: Node)
    | Binary(op: BinOp, left: Node, right: Node)
    | Assign(target: Node, value: Node)
    | Call(callee: Node, args: seq<Node>)
    | MethodCall(receiver: Node, name: string, args: seq<Node>)
    | Compound(parts: seq<Node>)
    | Match(scrutinee: Node, arms: seq<Node>)
    | Arm(guard: Node, result: Node)
    | MayExit(inner: Node)
    | Loop(cond: Node, again: Node)
    | Let(pat: Pattern, init: Node, diverge: Node)
    | Declare(pat: Pattern)

  datatype Event = ExternalCall | StateWrite

  function Size(n: Node): (r: nat)
    ensures r >= 1
  {
    match n
    case Literal(_) => 1
    case Path(_) => 1
    case Wrap(e) => 1 + Size(e)
    case Binary(_, l, r) => 1 + Size(l) + Size(r)
    case Assign(t, v) => 1 + Size(t) + Size(v)
    case Call(f, args) => 1 + Size(f) + SizeAll(args)
    case MethodCall(r, _, args) => 1 + Size(r) + SizeAll(args)
    case Compound(parts) => 1 + SizeAll(parts)
    case Match(s, arms) => 1 + Size(s) + SizeAll(arms)
    case Arm(g, r) => 1 + Size(g) + Size(r)
    case MayExit(e) => 1 + Size(e)
    case Loop(c, b) => 1 + Size(c) + Size(b)
    case Let(_, i, d) => 1 + Size(i) + Size(d)
    case Declare(_) => 1
  }

  function SizeAll(ns: seq<Node>): nat {
    if ns == [] then 0 else Size(ns[0]) + SizeAll(ns[1..])
  }

  lemma SizeOfPair(a: Node, b: Node)
    ensures SizeAll([a, b]) == Size(a) + Size(b)
  {
    assert SizeAll([a, b][1..]) == Size(b);
  }

  /** The sub-nodes the function visitor walks, in its order: a call's callee is not among them. */
  function Visited(n: Node): (r: seq<Node>)
    ensures SizeAll(r) < Size(n)
  {
    match n
    case Literal(_) => []
    case Path(_) => []
    case Wrap(e) => [e]
    case Binary(_, l, r) => SizeOfPair(l, r); [l, r]
    case Assign(t, v) => SizeOfPair(t, v); [t, v]
    case Call(_, args) => args
    case MethodCall(r, _, args) => [r] + args
    case Compound(parts) => parts
    case Match(s, arms) => [s] + arms
    case Arm(g, r) => SizeOfPair(g, r); [g, r]
    case MayExit(e) => [e]
    case Loop(c, b) => SizeOfPair(c, b); [c, b]
    case Let(_, i, d) => SizeOfPair(i, d); [i, d]
    case Declare(_) => []
  }

  /** All sub-nodes, as the default walk of the search visitors sees them. */
  function SubNodes(n: Node): (r: seq<Node>)
    ensures SizeAll(r) < Size(n)
  {
    if n.Call? then [n.callee] + n.args else Visited(n)
  }

  /** The visitor leaves out no part of a node but the callee of a call. */
  lemma NothingIsLost(n: Node)
    ensures Size(n) == 1 + SizeAll(SubNodes(n))
    ensures Size(n) == 1 + SizeAll(Visited(n)) + (if n.Call? then Size(n.callee) else 0)
  {
    match n
    case Binary(_, l, r) => SizeOfPair(l, r);
    case Assign(t, v) => SizeOfPair(t, v);
    case Arm(g, r) => SizeOfPair(g, r);
    case Loop(c, b) => SizeOfPair(c, b);
    case Let(_, i, d) => SizeOfPair(i, d);
    case _ =>
  }

  const Absent := Compound([])

  // ----- Events -------------------------------------------------------------

  predicate IsInvoke(name: string) {
    name == "invoke_contract" || name == "invoke_contract_light"
  }

  predicate IsWrite(name: string) {
    exists p :: p in ["set", "write", "put", "remove", "delete", "extend"] && SameIgnoringCase(name, p)
  }

  function CallEvents(name: string): seq<Event> {
    if IsInvoke(name) then [ExternalCall] else []
  }

  function WriteEvents(name: string): seq<Event> {
    if IsWrite(name) then [StateWrite] else []
  }

  /** The events a node raises itself, after its parts. */
  function Own(n: Node): seq<Event> {
    match n
    case Call(Path(segments), _) => if segments == [] then [] else CallEvents(segments[|segments| - 1])
    case MethodCall(_, name, _) => CallEvents(name) + WriteEvents(name)
    case _ => []
  }

  /** Calls and writes go by name: the last segment of a called path, or a method's name. */
  lemma EventsGoByName(n: Node, name: string, args: seq<Node>, path: seq<string>)
    ensures Own(MethodCall(n, name, args)) ==
      (if name in ["invoke_contract", "invoke_contract_light"] then [ExternalCall] else [])
      + (if Lower(name) in ["set", "write", "put", "remove", "delete", "extend"] then [StateWrite] else [])
    ensures Own(Call(Path(path + [name]), args)) ==
      if name in ["invoke_contract", "invoke_contract_light"] then [ExternalCall] else []
    ensures !n.Path? ==> Own(Call(n, args)) == []
  {
    assert Lower("set") == "set" && Lower("write") == "write" && Lower("put") == "put";
    assert Lower("remove") == "remove" && Lower("delete") == "delete" && Lower("extend") == "extend";
  }

  function Events(n: Node): seq<Event>
    decreases Size(n), 0
  {
    EventsAll(Visited(n)) + Own(n)
  }

  function EventsAll(ns: seq<Node>): seq<Event>
    decreases SizeAll(ns), 1
  {
    if ns == [] then [] else Events(ns[0]) + EventsAll(ns[1..])
  }

  function Count(events: seq<Event>, e: Event): nat {
    multiset(events)[e]
  }

  // ----- The division taint ---------------------------------------------------

  predicate IsConstant(n: Node) {
    match n
    case Literal(isInt) => isInt
    case Wrap(e) => IsConstant(e)
    case Binary(_, l, r) => IsConstant(l) && IsConstant(r)
    case _ => false
  }

  predicate ContainsDivision(n: Node)
    decreases Size(n), 0
  {
    (n.Binary? && n.op == Div && !(IsConstant(n.left) && IsConstant(n.right))) || AnyContainsDivision(SubNodes(n))
  }

  predicate AnyContainsDivision(ns: seq<Node>)
    decreases SizeAll(ns), 1
  {
    ns != [] && (ContainsDivision(ns[0]) || AnyContainsDivision(ns[1..]))
  }

  predicate UsesAny(n: Node, names: set<string>)
    decreases Size(n), 0
  {
    (n.Path? && |n.segments| == 1 && n.segments[0] in names) || AnyUsesAny(SubNodes(n), names)
  }

  predicate AnyUsesAny(ns: seq<Node>, names: set<string>)
    decreases SizeAll(ns), 1
  {
    ns != [] && (UsesAny(ns[0], names) || AnyUsesAny(ns[1..], names))
  }

  predicate Divided(n: Node, taint: set<string>) {
    ContainsDivision(n) || UsesAny(n, taint)
  }

  /** A binding updates the tainted names before its initialiser is walked. */
  function Bind(n: Node, taint: set<string>): set<string> {
    if n.Let? && n.pat.Ident? then
      if Divided(n.init, taint) then taint + {n.pat.name} else taint - {n.pat.name}
    else taint
  }

  /** The tainted names after walking `n`. */
  function Taint(n: Node, taint: set<string>): set<string>
    decreases Size(n), 0
  {
    TaintAll(Visited(n), Bind(n, taint))
  }

  function TaintAll(ns: seq<Node>, taint: set<string>): set<string>
    decreases SizeAll(ns), 1
  {
    if ns == [] then taint else TaintAll(ns[1..], Taint(ns[0], taint))
  }

  /** Walking `n` meets a multiplication with a divided operand. */
  predicate Flags(n: Node, taint: set<string>)
    decreases Size(n), 0
  {
    || MultipliesDivided(n, taint)
    || FlagsAll(Visited(n), Bind(n, taint))
  }

  predicate FlagsAll(ns: seq<Node>, taint: set<string>)
    decreases SizeAll(ns), 1
  {
    ns != [] && (Flags(ns[0], taint) || FlagsAll(ns[1..], Taint(ns[0], taint)))
  }

  // ----- The visitor ------------------------------------------------------------

  /** What the visitor carries along: recorded events, tainted names, and the division flag. */
  datatype Record = Record(events: seq<Event>, divided: set<string>, flagged: bool)

  predicate MultipliesDivided(n: Node, taint: set<string>) {
    n.Binary? && n.op == Mul && (Divided(n.left, taint) || Divided(n.right, taint))
  }

  function Enter(n: Node, r: Record): Record {
    Record(r.events, Bind(n, r.divided), r.flagged || MultipliesDivided(n, r.divided))
  }

  function Leave(n: Node, r: Record): Record {
    r.(events := r.events + Own(n))
  }

  function Walk(n: Node, r: Record): Record
    decreases Size(n), 0
  {
    Leave(n, WalkAll(Visited(n), Enter(n, r)))
  }

  function WalkAll(ns: seq<Node>, r: Record): Record
    decreases SizeAll(ns), 1
  {
    if ns == [] then r else WalkAll(ns[1..], Walk(ns[0], r))
  }

  /** The walk appends the events of the node, updates the taint, and raises the flag where `Flags` says. */
  lemma {:induction false} WalkMeaning(n: Node, r: Record)
    ensures Walk(n, r) == Meant(n, r)
    decreases Size(n), 0
  {
    WalkAllMeaning(Visited(n), Enter(n, r));
  }

  lemma {:induction false} WalkAllMeaning(ns: seq<Node>, r: Record)
    ensures WalkAll(ns, r) == AllMeant(ns, r)
    decreases SizeAll(ns), 1
  {
    if ns != [] {
      WalkMeaning(ns[0], r);
      WalkAllMeaning(ns[1..], Walk(ns[0], r));
      MeantInTurn(ns, r);
    }
  }

  function Meant(n: Node, r: Record): Record {
    Record(r.events + Events(n), Taint(n, r.divided), r.flagged || Flags(n, r.divided))
  }

  function AllMeant(ns: seq<Node>, r: Record): Record {
    Record(r.events + EventsAll(ns), TaintAll(ns, r.divided), r.flagged || FlagsAll(ns, r.divided))
  }

  lemma MeantInTurn(ns: seq<Node>, r: Record)
    requires ns != []
    ensures AllMeant(ns, r) == AllMeant(ns[1..], Meant(ns[0], r))
  {
    var a, b, c := r.events, Events(ns[0]), EventsAll(ns[1..]);
    assert (a + b) + c == a + (b + c);
  }

  class FnVisitor {
    var events: seq<Event>
    var divided: set<string>
    var divisionBeforeMultiplication: bool
    var invokeContract: nat
    var stateWrites: nat

    constructor ()
      ensures Now() == Record([], {}, false) && CountersAgree()
    {
      events, divided, divisionBeforeMultiplication := [], {}, false;
      invokeContract, stateWrites := 0, 0;
    }

    ghost function Now(): Record
      reads this
    {
      Record(events, divided, divisionBeforeMultiplication)
    }

    /** The two counters hold the numbers of recorded events. */
    ghost predicate CountersAgree()
      reads this
    {
      invokeContract == Count(events, ExternalCall) && stateWrites == Count(events, StateWrite)
    }

    /** `visit_local` and `visit_expr_binary` act before the parts of the node are walked. */
    method EnterNode(n: Node)
      requires CountersAgree()
      modifies this
      ensures Now() == Enter(n, old(Now())) && CountersAgree()
    {
      if n.Let? && n.pat.Ident? {
        if ContainsDivision(n.init) || UsesAny(n.init, divided) {
          divided := divided + {n.pat.name};
        } else {
          divided := divided - {n.pat.name};
        }
      }
      if n.Binary? && n.op == Mul {
        if ContainsDivision(n.left) || ContainsDivision(n.right) || UsesAny(n.left, divided) || UsesAny(n.right, divided) {
          divisionBeforeMultiplication := true;
        }
      }
    }

    method RecordCall(name: string)
      requires CountersAgree()
      modifies this`events, this`invokeContract
      ensures events == old(events) + CallEvents(name) && CountersAgree()
    {
      if IsInvoke(name) {
        invokeContract := invokeContract + 1;
        events := events + [ExternalCall];
      }
    }

    method DetectStateWrite(name: string)
      requires CountersAgree()
      modifies this`events, this`stateWrites
      ensures events == old(events) + WriteEvents(name) && CountersAgree()
    {
      if IsWrite(name) {
        events := events + [StateWrite];
        stateWrites := stateWrites + 1;
      }
    }

    /** Calls record their event after their receiver and arguments. */
    method LeaveNode(n: Node)
      requires CountersAgree()
      modifies this`events, this`invokeContract, this`stateWrites
      ensures events == old(events) + Own(n) && CountersAgree()
    {
      if n.MethodCall? {
        RecordCall(n.name);
        DetectStateWrite(n.name);
        return;
      }
      if n.Call? && n.callee.Path? && n.callee.segments != [] {
        RecordCall(n.callee.segments[|n.callee.segments| - 1]);
      }
    }

    method Visit(n: Node)
      requires CountersAgree()
      modifies this
      ensures Now() == Walk(n, old(Now())) && CountersAgree()
      decreases Size(n), 0
    {
      EnterNode(n);
      VisitAll(Visited(n));
      LeaveNode(n);
    }

    method VisitAll(ns: seq<Node>)
      requires CountersAgree()
      modifies this
      ensures Now() == WalkAll(ns, old(Now())) && CountersAgree()
      decreases SizeAll(ns), 1
    {
      if ns != [] {
        Visit(ns[0]);
        VisitAll(ns[1..]);
      }
    }
  }

  datatype FnScan = FnScan(
    divisionBeforeMultiplication: bool,
    externalCallBeforeStateWrite: bool,
    invokeContract: nat,
    stateWrites: nat)

  /** Some external call comes before some state write. */
  ghost predicate Hazard(events: seq<Event>) {
    exists i, j :: 0 <= i < j < |events| && events[i] == ExternalCall && events[j] == StateWrite
  }

  method ScanOrder(events: seq<Event>) returns (hazard: bool)
    ensures hazard <==> Hazard(events)
  {
    var found := false;
    for i := 0 to |events|
      invariant found <==> ExternalCall in events[..i]
      invariant !Hazard(events[..i])
    {
      if events[i] == StateWrite && found {
        var k :| 0 <= k < i && events[..i][k] == ExternalCall;
        assert events[k] == ExternalCall;
        return true;
      }
      if events[i] == ExternalCall {
        found := true;
      }
      assert events[..i + 1] == events[..i] + [events[i]];
      NoHazardStep(events, i);
    }
    assert events[..|events|] == events;
    return false;
  }

  lemma NoHazardStep(events: seq<Event>, i: nat)
    requires i < |events| && !Hazard(events[..i])
    requires events[i] == ExternalCall || ExternalCall !in events[..i]
    ensures !Hazard(events[..i + 1])
  {
    var longer := events[..i + 1];
    forall j, k | 0 <= j < k < |longer| && longer[j] == ExternalCall ensures longer[k] != StateWrite {
      assert events[..i][j] == longer[j];
      if k < i {
        assert events[..i][k] == longer[k];
      }
    }
  }

  lemma WalkOfBody(body: seq<Node>)
    ensures var r := WalkAll(body, Record([], {}, false));
      r.events == EventsAll(body) && (r.flagged <==> FlagsAll(body, {}))
  {
    WalkAllMeaning(body, Record([], {}, false));
    assert [] + EventsAll(body) == EventsAll(body);
  }

  method ScanFunction(body: seq<Node>) returns (scan: FnScan)
    ensures scan.divisionBeforeMultiplication <==> FlagsAll(body, {})
    ensures scan.externalCallBeforeStateWrite <==> Hazard(EventsAll(body))
    ensures scan.invokeContract == Count(EventsAll(body), ExternalCall)
    ensures scan.stateWrites == Count(EventsAll(body), StateWrite)
  {
    var visitor := new FnVisitor();
    visitor.VisitAll(body);
    WalkOfBody(body);
    var hazard := ScanOrder(visitor.events);
    return FnScan(visitor.divisionBeforeMultiplication, hazard, visitor.invokeContract, visitor.stateWrites);
  }
}
