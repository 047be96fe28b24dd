/**
  Soundness of the call-before-write check: the events recorded for a function
  body are compared with the events its executions raise.
 */
module AuditOrder {
  import opened Texts
  import opened Audit

  // ----- Executions -----------------------------------------------------------

  /** The control flow of a body, reduced to what it raises and where it can go. */
  datatype Flow =
    | Emit(events: seq<Event>)
    | Then(first: Flow, second: Flow)
    | Either(left: Flow, right: Flow)
    | Exit                              // the execution may leave the body here
    | Repeat(body: Flow)

  /** Resolves every choice of an execution: branch taken, body left, loop repeated. */
  type Oracle = nat -> nat

  datatype Outcome = Outcome(trace: seq<Event>, next: nat, exited: bool)

  function Exec(f: Flow, o: Oracle, at: nat): Outcome
    decreases f, 0
  {
    match f
    case Emit(events) => Outcome(events, at, false)
    case Then(first, second) =>
      var a := Exec(first, o, at);
      if a.exited then a else
      var b := Exec(second, o, a.next);
      Outcome(a.trace + b.trace, b.next, b.exited)
    case Either(left, right) => if o(at) == 0 then Exec(left, o, at + 1) else Exec(right, o, at + 1)
    case Exit => Outcome([], at + 1, o(at) == 0)
    case Repeat(body) => ExecTimes(body, o(at), o, at + 1)
  }

  function ExecTimes(f: Flow, times: nat, o: Oracle, at: nat): Outcome
    decreases f, 1 + times
  {
    if times == 0 then Outcome([], at, false) else
    var a := Exec(f, o, at);
    if a.exited then a else
    var b := ExecTimes(f, times - 1, o, a.next);
    Outcome(a.trace + b.trace, b.next, b.exited)
  }

  /** A compound assignment. */
  predicate Updates(n: Node) {
    n.Binary? && Assigns(n.op)
  }

  /** The parts of a node in the order they are evaluated: an assignment computes its value first. */
  function EvalOrder(n: Node): (r: seq<Node>)
    ensures SizeAll(r) < Size(n)
  {
    if n.Assign? then SizeOfPair(n.value, n.target); [n.value, n.target]
    else if Updates(n) then SizeOfPair(n.right, n.left); [n.right, n.left]
    else SubNodes(n)
  }

  /** Of an assignment the value comes first; everything else goes from left to right. */
  lemma OrderOfEvaluation(op: BinOp, name: string, left: Node, right: Node, args: seq<Node>)
    ensures EvalOrder(Assign(left, right)) == [right, left]
    ensures op in {MulAssign, DivAssign, OtherAssign} ==> EvalOrder(Binary(op, left, right)) == [right, left]
    ensures op in {Mul, Div, And, Or, OtherOp} ==> EvalOrder(Binary(op, left, right)) == [left, right]
    ensures EvalOrder(Call(left, args)) == EvalOrder(MethodCall(left, name, args)) == [left] + args
    ensures EvalOrder(Compound(args)) == args
  {
    SizeOfPair(left, right);
    SizeOfPair(right, left);
  }

  predicate ShortCircuits(n: Node) {
    n.Binary? && (n.op == And || n.op == Or)
  }

  const Nothing := Emit([])

  /** How a node executes. */
  function Behaviour(n: Node): Flow
    decreases Size(n), 0
  {
    if ShortCircuits(n) then Then(Behaviour(n.left), Either(Behaviour(n.right), Nothing))
    else if n.Match? then Then(Behaviour(n.scrutinee), ArmsBehaviour(n.arms))
    else if n.MayExit? then Then(Behaviour(n.inner), Exit)
    else if n.Loop? then Then(Behaviour(n.cond), Repeat(Then(Behaviour(n.again), Behaviour(n.cond))))
    else if n.Let? && n.diverge != Absent then
      Then(Behaviour(n.init), Either(Nothing, Then(Behaviour(n.diverge), Exit)))
    else Then(BehaviourAll(EvalOrder(n)), Emit(Own(n)))
  }

  function BehaviourAll(ns: seq<Node>): Flow
    decreases SizeAll(ns), 1
  {
    if ns == [] then Nothing else Then(Behaviour(ns[0]), BehaviourAll(ns[1..]))
  }

  /** Tries the arms in turn: the pattern may not match, and the guard may fail. */
  function ArmsBehaviour(arms: seq<Node>): Flow
    decreases SizeAll(arms), 1
  {
    if arms == [] then Nothing else
    var rest := ArmsBehaviour(arms[1..]);
    if arms[0].Arm? then
      assert Size(arms[0]) == 1 + Size(arms[0].guard) + Size(arms[0].result);
      Either(Then(Behaviour(arms[0].guard), Either(Behaviour(arms[0].result), rest)), rest)
    else Either(Behaviour(arms[0]), rest)
  }

  // ----- Subsequences ------------------------------------------------------------

  predicate Subsequence(t: seq<Event>, u: seq<Event>) {
    t == [] || (u != [] && ((t[0] == u[0] && Subsequence(t[1..], u[1..])) || Subsequence(t, u[1..])))
  }

  lemma {:induction false} SubsequenceConcat(a: seq<Event>, b: seq<Event>, c: seq<Event>, d: seq<Event>)
    requires Subsequence(a, b) && Subsequence(c, d)
    ensures Subsequence(a + c, b + d)
    decreases |b|
  {
    if b == [] {
      assert a + c == c && b + d == d;
    } else {
      assert (b + d)[1..] == b[1..] + d;
      if a == [] {
        SubsequenceConcat(a, b[1..], c, d);
      } else if a[0] == b[0] && Subsequence(a[1..], b[1..]) {
        SubsequenceConcat(a[1..], b[1..], c, d);
        assert (a + c)[1..] == a[1..] + c;
      } else {
        SubsequenceConcat(a, b[1..], c, d);
      }
    }
  }

  lemma SubsequenceExtends(a: seq<Event>, b: seq<Event>, more: seq<Event>)
    requires Subsequence(a, b)
    ensures Subsequence(a, b + more) && Subsequence(a, more + b)
  {
    SubsequenceConcat(a, b, [], more);
    SubsequenceConcat([], more, a, b);
    assert a + [] == a && [] + a == a;
  }

  lemma {:induction false} SubsequenceKeepsMember(t: seq<Event>, u: seq<Event>, j: nat) returns (k: nat)
    requires Subsequence(t, u) && j < |t|
    ensures k < |u| && u[k] == t[j]
    decreases |u|
  {
    if t[0] == u[0] && Subsequence(t[1..], u[1..]) {
      if j == 0 {
        k := 0;
      } else {
        k := SubsequenceKeepsMember(t[1..], u[1..], j - 1);
        k := k + 1;
      }
    } else {
      k := SubsequenceKeepsMember(t, u[1..], j);
      k := k + 1;
    }
  }

  lemma {:induction false} SubsequenceKeepsHazard(t: seq<Event>, u: seq<Event>)
    requires Subsequence(t, u) && Hazard(t)
    ensures Hazard(u)
    decreases |u|
  {
    var i, j :| 0 <= i < j < |t| && t[i] == ExternalCall && t[j] == StateWrite;
    if t[0] == u[0] && Subsequence(t[1..], u[1..]) {
      if i == 0 {
        var k := SubsequenceKeepsMember(t[1..], u[1..], j - 1);
        assert u[0] == ExternalCall && u[k + 1] == StateWrite;
      } else {
        assert t[1..][i - 1] == ExternalCall && t[1..][j - 1] == StateWrite;
        SubsequenceKeepsHazard(t[1..], u[1..]);
        HazardShifts(u);
      }
    } else {
      SubsequenceKeepsHazard(t, u[1..]);
      HazardShifts(u);
    }
  }

  lemma HazardShifts(u: seq<Event>)
    requires u != [] && Hazard(u[1..])
    ensures Hazard(u)
  {
    var i, j :| 0 <= i < j < |u[1..]| && u[1..][i] == ExternalCall && u[1..][j] == StateWrite;
    assert u[i + 1] == ExternalCall && u[j + 1] == StateWrite;
  }

  // ----- Traces of flows ----------------------------------------------------------

  /** Every execution of `f` raises a subsequence of `u`. */
  ghost predicate TracesIn(f: Flow, u: seq<Event>) {
    forall o: Oracle, at: nat :: Subsequence(Exec(f, o, at).trace, u)
  }

  lemma ThenTracesIn(a: Flow, b: Flow, u: seq<Event>, v: seq<Event>)
    requires TracesIn(a, u) && TracesIn(b, v)
    ensures TracesIn(Then(a, b), u + v)
  {
    forall o: Oracle, at: nat ensures Subsequence(Exec(Then(a, b), o, at).trace, u + v) {
      var x := Exec(a, o, at);
      SubsequenceExtends(x.trace, u, v);
      if !x.exited {
        SubsequenceConcat(x.trace, u, Exec(b, o, x.next).trace, v);
      }
    }
  }

  lemma EitherTracesIn(a: Flow, b: Flow, u: seq<Event>)
    requires TracesIn(a, u) && TracesIn(b, u)
    ensures TracesIn(Either(a, b), u)
  {
  }

  lemma ExitTracesIn(a: Flow, u: seq<Event>)
    requires TracesIn(a, u)
    ensures TracesIn(Then(a, Exit), u)
  {
    assert TracesIn(Exit, []);
    ThenTracesIn(a, Exit, u, []);
    assert u + [] == u;
  }

  lemma WidenTracesIn(f: Flow, u: seq<Event>, before: seq<Event>, after: seq<Event>)
    requires TracesIn(f, u)
    ensures TracesIn(f, before + u) && TracesIn(f, u + after)
  {
    forall o: Oracle, at: nat
      ensures Subsequence(Exec(f, o, at).trace, before + u) && Subsequence(Exec(f, o, at).trace, u + after)
    {
      SubsequenceExtends(Exec(f, o, at).trace, u, before);
      SubsequenceExtends(Exec(f, o, at).trace, u, after);
    }
  }

  lemma {:induction false} SubsequenceReflexive(t: seq<Event>)
    ensures Subsequence(t, t)
  {
    if t != [] {
      SubsequenceReflexive(t[1..]);
    }
  }

  lemma EmitTracesIn(u: seq<Event>)
    ensures TracesIn(Emit(u), u)
  {
    SubsequenceReflexive(u);
  }

  // ----- Bodies for which the recorded order is an execution order -----------------

  predicate Silent(n: Node) {
    Events(n) == []
  }

  /** No loop, no events in the expression of a callee, and no assignment with events on both sides. */
  predicate Orderly(n: Node)
    decreases Size(n), 0
  {
    && !n.Loop?
    && (n.Assign? ==> Silent(n.target) || Silent(n.value))
    && (Updates(n) ==> Silent(n.left) || Silent(n.right))
    && (n.Call? ==> Silent(n.callee))
    && OrderlyAll(SubNodes(n))
  }

  predicate OrderlyAll(ns: seq<Node>)
    decreases SizeAll(ns), 1
  {
    ns == [] || (Orderly(ns[0]) && OrderlyAll(ns[1..]))
  }

  lemma PairParts(a: Node, b: Node)
    ensures EventsAll([a, b]) == Events(a) + Events(b)
    ensures OrderlyAll([a, b]) <==> Orderly(a) && Orderly(b)
  {
    assert [a, b][1..] == [b];
    assert EventsAll([b]) == Events(b) + EventsAll([]);
    assert OrderlyAll([b]) <==> Orderly(b);
  }

  lemma ConsParts(a: Node, ns: seq<Node>)
    ensures EventsAll([a] + ns) == Events(a) + EventsAll(ns)
    ensures OrderlyAll([a] + ns) <==> Orderly(a) && OrderlyAll(ns)
  {
    assert ([a] + ns)[1..] == ns;
  }

  lemma TwoParts(n: Node, a: Node, b: Node)
    requires Visited(n) == SubNodes(n) == [a, b] && Own(n) == [] && !n.Loop? && !n.Assign? && !Updates(n) && !n.Call?
    ensures Events(n) == Events(a) + Events(b) && (Orderly(n) <==> Orderly(a) && Orderly(b))
    ensures Size(a) + Size(b) < Size(n)
  {
    PairParts(a, b);
    SizeOfPair(a, b);
  }

  lemma ExitParts(n: Node)
    requires n.MayExit?
    ensures Events(n) == Events(n.inner) && (Orderly(n) <==> Orderly(n.inner)) && Size(n.inner) < Size(n)
  {
    ConsParts(n.inner, []);
    assert [n.inner] + [] == [n.inner];
  }

  lemma MatchParts(n: Node)
    requires n.Match?
    ensures Events(n) == Events(n.scrutinee) + EventsAll(n.arms)
    ensures Orderly(n) <==> Orderly(n.scrutinee) && OrderlyAll(n.arms)
    ensures Size(n.scrutinee) + SizeAll(n.arms) < Size(n)
  {
    ConsParts(n.scrutinee, n.arms);
  }

  /** Evaluation order and visiting order agree on the events of an orderly node's parts. */
  lemma EvalOrderAgrees(n: Node)
    requires Orderly(n)
    ensures EventsAll(EvalOrder(n)) == EventsAll(Visited(n)) && OrderlyAll(EvalOrder(n))
  {
    if n.Assign? {
      assert EvalOrder(n) == [n.value, n.target] && Visited(n) == [n.target, n.value];
      PairParts(n.target, n.value);
      PairParts(n.value, n.target);
    } else if Updates(n) {
      assert EvalOrder(n) == [n.right, n.left] && Visited(n) == [n.left, n.right];
      PairParts(n.left, n.right);
      PairParts(n.right, n.left);
    } else if n.Call? {
      assert EvalOrder(n) == [n.callee] + n.args && Visited(n) == n.args;
      ConsParts(n.callee, n.args);
    }
  }

  /** Every execution of an orderly node raises a subsequence of the events recorded for it. */
  lemma {:induction false} TraceIsRecorded(n: Node)
    requires Orderly(n)
    ensures TracesIn(Behaviour(n), Events(n))
    decreases Size(n), 0
  {
    if ShortCircuits(n) {
      TwoParts(n, n.left, n.right);
      TraceIsRecorded(n.left);
      TraceIsRecorded(n.right);
      EitherTracesIn(Behaviour(n.right), Nothing, Events(n.right));
      ThenTracesIn(Behaviour(n.left), Either(Behaviour(n.right), Nothing), Events(n.left), Events(n.right));
    } else if n.Match? {
      MatchParts(n);
      TraceIsRecorded(n.scrutinee);
      ArmsAreRecorded(n.arms);
      ThenTracesIn(Behaviour(n.scrutinee), ArmsBehaviour(n.arms), Events(n.scrutinee), EventsAll(n.arms));
    } else if n.MayExit? {
      ExitParts(n);
      TraceIsRecorded(n.inner);
      ExitTracesIn(Behaviour(n.inner), Events(n.inner));
    } else if n.Let? && n.diverge != Absent {
      TwoParts(n, n.init, n.diverge);
      TraceIsRecorded(n.init);
      TraceIsRecorded(n.diverge);
      ExitTracesIn(Behaviour(n.diverge), Events(n.diverge));
      var otherwise := Then(Behaviour(n.diverge), Exit);
      EitherTracesIn(Nothing, otherwise, Events(n.diverge));
      ThenTracesIn(Behaviour(n.init), Either(Nothing, otherwise), Events(n.init), Events(n.diverge));
    } else {
      EvalOrderAgrees(n);
      AllAreRecorded(EvalOrder(n));
      EmitTracesIn(Own(n));
      ThenTracesIn(BehaviourAll(EvalOrder(n)), Emit(Own(n)), EventsAll(EvalOrder(n)), Own(n));
    }
  }

  lemma {:induction false} AllAreRecorded(ns: seq<Node>)
    requires OrderlyAll(ns)
    ensures TracesIn(BehaviourAll(ns), EventsAll(ns))
    decreases SizeAll(ns), 1
  {
    if ns != [] {
      TraceIsRecorded(ns[0]);
      AllAreRecorded(ns[1..]);
      ThenTracesIn(Behaviour(ns[0]), BehaviourAll(ns[1..]), Events(ns[0]), EventsAll(ns[1..]));
    }
  }

  lemma {:induction false} ArmsAreRecorded(arms: seq<Node>)
    requires OrderlyAll(arms)
    ensures TracesIn(ArmsBehaviour(arms), EventsAll(arms))
    decreases SizeAll(arms), 1
  {
    if arms != [] {
      var first, rest := arms[0], arms[1..];
      var u, v := Events(first), EventsAll(rest);
      ArmsAreRecorded(rest);
      WidenTracesIn(ArmsBehaviour(rest), v, u, []);
      if first.Arm? {
        TwoParts(first, first.guard, first.result);
        TraceIsRecorded(first.guard);
        TraceIsRecorded(first.result);
        ArmTracesIn(Behaviour(first.guard), Behaviour(first.result), ArmsBehaviour(rest),
                    Events(first.guard), Events(first.result), v);
      } else {
        TraceIsRecorded(first);
        WidenTracesIn(Behaviour(first), u, [], v);
        EitherTracesIn(Behaviour(first), ArmsBehaviour(rest), u + v);
      }
    }
  }

  lemma ArmTracesIn(guard: Flow, result: Flow, rest: Flow, g: seq<Event>, r: seq<Event>, v: seq<Event>)
    requires TracesIn(guard, g) && TracesIn(result, r) && TracesIn(rest, v)
    ensures TracesIn(Either(Then(guard, Either(result, rest)), rest), (g + r) + v)
  {
    WidenTracesIn(result, r, [], v);
    WidenTracesIn(rest, v, r, []);
    EitherTracesIn(result, rest, r + v);
    ThenTracesIn(guard, Either(result, rest), g, r + v);
    WidenTracesIn(rest, v, g + r, []);
    assert g + (r + v) == (g + r) + v;
    EitherTracesIn(Then(guard, Either(result, rest)), rest, (g + r) + v);
  }

  /** No hazard escapes: if some execution of an orderly body calls out before it writes, the scan says so. */
  lemma HazardousExecutionIsReported(body: seq<Node>, o: Oracle)
    requires OrderlyAll(body) && Hazard(Exec(BehaviourAll(body), o, 0).trace)
    ensures Hazard(EventsAll(body))
  {
    AllAreRecorded(body);
    SubsequenceKeepsHazard(Exec(BehaviourAll(body), o, 0).trace, EventsAll(body));
  }

  // ----- Branch-free bodies --------------------------------------------------------

  /** No choice is left to the execution: it runs every part once. */
  predicate BranchFree(n: Node)
    decreases Size(n), 0
  {
    && !ShortCircuits(n) && !n.Match? && !n.MayExit? && !n.Loop?
    && (n.Let? ==> n.diverge == Absent)
    && BranchFreeAll(SubNodes(n))
  }

  predicate BranchFreeAll(ns: seq<Node>)
    decreases SizeAll(ns), 1
  {
    ns == [] || (BranchFree(ns[0]) && BranchFreeAll(ns[1..]))
  }

  /** Every execution of `f` raises exactly `u` and runs to the end. */
  ghost predicate TraceIs(f: Flow, u: seq<Event>) {
    forall o: Oracle, at: nat :: Exec(f, o, at).trace == u && !Exec(f, o, at).exited
  }

  lemma ThenTraceIs(a: Flow, b: Flow, u: seq<Event>, v: seq<Event>)
    requires TraceIs(a, u) && TraceIs(b, v)
    ensures TraceIs(Then(a, b), u + v)
  {
  }

  lemma {:induction false} BranchFreeTrace(n: Node)
    requires BranchFree(n) && Orderly(n)
    ensures TraceIs(Behaviour(n), Events(n))
    decreases Size(n), 0
  {
    EvalOrderAgrees(n);
    if n.Assign? {
      BranchFreePair(n.target, n.value);
      BranchFreePair(n.value, n.target);
    } else if Updates(n) {
      BranchFreePair(n.left, n.right);
      BranchFreePair(n.right, n.left);
    }
    BranchFreeTraces(EvalOrder(n));
    assert TraceIs(Emit(Own(n)), Own(n));
    ThenTraceIs(BehaviourAll(EvalOrder(n)), Emit(Own(n)), EventsAll(EvalOrder(n)), Own(n));
  }

  lemma BranchFreePair(a: Node, b: Node)
    ensures BranchFreeAll([a, b]) <==> BranchFree(a) && BranchFree(b)
  {
    assert [a, b][1..] == [b];
    assert BranchFreeAll([b]) <==> BranchFree(b);
  }

  /** An execution of a branch-free orderly body raises exactly the recorded events. */
  lemma {:induction false} BranchFreeTraces(ns: seq<Node>)
    requires BranchFreeAll(ns) && OrderlyAll(ns)
    ensures TraceIs(BehaviourAll(ns), EventsAll(ns))
    decreases SizeAll(ns), 1
  {
    if ns != [] {
      BranchFreeTrace(ns[0]);
      BranchFreeTraces(ns[1..]);
      ThenTraceIs(Behaviour(ns[0]), BehaviourAll(ns[1..]), Events(ns[0]), EventsAll(ns[1..]));
    }
  }

  /** For branch-free orderly bodies the check is exact, whatever the oracle. */
  lemma BranchFreeCheckIsExact(body: seq<Node>, o: Oracle)
    requires BranchFreeAll(body) && OrderlyAll(body)
    ensures Hazard(EventsAll(body)) <==> Hazard(Exec(BehaviourAll(body), o, 0).trace)
  {
    BranchFreeTraces(body);
  }

  // ----- Where the check falls short ------------------------------------------------

  /** A node that raises the one event `e`, in the walk and when it runs. */
  ghost predicate Raises(n: Node, e: Event) {
    Events(n) == [e] && TraceIs(Behaviour(n), [e])
  }

  const Env := Path(["env"])

  /** Such nodes exist: a method call on `env`. */
  lemma MethodCallRaises()
    ensures Raises(MethodCall(Env, "invoke_contract", []), ExternalCall)
    ensures Raises(MethodCall(Env, "set", []), StateWrite)
  {
    assert SameIgnoringCase("set", "set") && "set" in ["set", "write", "put", "remove", "delete", "extend"];
    assert CallEvents("invoke_contract") == [ExternalCall] && WriteEvents("invoke_contract") == [];
    assert CallEvents("set") == [] && WriteEvents("set") == [StateWrite];
    BareMethodCall("invoke_contract");
    BareMethodCall("set");
  }

  lemma BareMethodCall(name: string)
    ensures var n := MethodCall(Env, name, []);
      Events(n) == CallEvents(name) + WriteEvents(name) && TraceIs(Behaviour(n), CallEvents(name) + WriteEvents(name))
  {
    var n := MethodCall(Env, name, []);
    assert [Env] + [] == [Env] && [Env][1..] == [];
    assert Events(Env) == [] && Orderly(Env) && BranchFree(Env);
    BranchFreeTrace(n);
  }

  /** The hazard an execution of `body` runs into goes unreported. */
  ghost predicate Missed(body: seq<Node>, o: Oracle) {
    Hazard(Exec(BehaviourAll(body), o, 0).trace) && !Hazard(EventsAll(body))
  }

  lemma SingleParts(a: Node)
    ensures EventsAll([a]) == Events(a) && BehaviourAll([a]) == Then(Behaviour(a), Nothing)
  {
    assert [a][1..] == [];
  }

  lemma PairBehaviour(a: Node, b: Node)
    ensures BehaviourAll([a, b]) == Then(Behaviour(a), Then(Behaviour(b), Nothing))
  {
    assert [a, b][1..] == [b];
    SingleParts(b);
  }

  lemma EndTraceIs(f: Flow, u: seq<Event>)
    requires TraceIs(f, u)
    ensures TraceIs(Then(f, Nothing), u)
  {
    ThenTraceIs(f, Nothing, u, []);
    assert u + [] == u;
  }

  lemma EndKeepsTrace(f: Flow, o: Oracle)
    ensures Exec(Then(f, Nothing), o, 0).trace == Exec(f, o, 0).trace
  {
  }

  lemma CallThenWriteIsHazard()
    ensures Hazard([ExternalCall] + [StateWrite]) && !Hazard([StateWrite] + [ExternalCall])
  {
    var t := [ExternalCall] + [StateWrite];
    assert t[0] == ExternalCall && t[1] == StateWrite;
  }

  lemma WrapBehaviour(n: Node)
    ensures Behaviour(Wrap(n)) == Then(Then(Behaviour(n), Nothing), Nothing)
  {
    SingleParts(n);
  }

  lemma IndirectCall(f: Node)
    requires !f.Path?
    ensures Behaviour(Call(f, [])) == Then(Then(Behaviour(f), Nothing), Nothing) && Events(Call(f, [])) == []
  {
    assert [f] + [] == [f];
    SingleParts(f);
  }

  /** An external call that the walk does not see is missed before a write. */
  lemma HiddenCall(hidden: Node, write: Node, o: Oracle)
    requires TraceIs(Behaviour(hidden), [ExternalCall]) && Events(hidden) == [] && Raises(write, StateWrite)
    ensures Missed([hidden, write], o)
  {
    CallThenWrite(Behaviour(hidden), Behaviour(write), o);
    PairBehaviour(hidden, write);
    PairParts(hidden, write);
  }

  /** A callee expression is not walked: calling a function obtained from an external call hides that call. */
  lemma CalleeHidesCall(call: Node, write: Node, o: Oracle)
    requires Raises(call, ExternalCall) && Raises(write, StateWrite)
    ensures Missed([Call(Wrap(call), []), write], o)
  {
    WrapBehaviour(call);
    EndTraceIs(Behaviour(call), [ExternalCall]);
    EndTraceIs(Then(Behaviour(call), Nothing), [ExternalCall]);
    var f := Wrap(call);
    IndirectCall(f);
    EndTraceIs(Behaviour(f), [ExternalCall]);
    EndTraceIs(Then(Behaviour(f), Nothing), [ExternalCall]);
    HiddenCall(Call(f, []), write, o);
  }

  lemma CallThenWrite(call: Flow, write: Flow, o: Oracle)
    requires TraceIs(call, [ExternalCall]) && TraceIs(write, [StateWrite])
    ensures Hazard(Exec(Then(call, Then(write, Nothing)), o, 0).trace)
    ensures TraceIs(Then(call, Then(write, Nothing)), [ExternalCall] + [StateWrite])
  {
    EndTraceIs(write, [StateWrite]);
    ThenTraceIs(call, Then(write, Nothing), [ExternalCall], [StateWrite]);
    CallThenWriteIsHazard();
  }

  /** The target of an assignment is walked first but evaluated last. */
  lemma AssignmentHidesCall(call: Node, write: Node, o: Oracle)
    requires Raises(call, ExternalCall) && Raises(write, StateWrite)
    ensures Missed([Assign(write, call)], o)
  {
    var assign := Assign(write, call);
    var inner := Then(Behaviour(call), Then(Behaviour(write), Nothing));
    PairBehaviour(call, write);
    assert Behaviour(assign) == Then(inner, Nothing);
    SingleParts(assign);
    CallThenWrite(Behaviour(call), Behaviour(write), o);
    EndTraceIs(inner, [ExternalCall] + [StateWrite]);
    EndTraceIs(Then(inner, Nothing), [ExternalCall] + [StateWrite]);
    CallThenWriteIsHazard();
    PairParts(write, call);
    assert Events(assign) == [StateWrite] + [ExternalCall];
  }

  lemma RepeatTrace(f: Flow, u: seq<Event>, o: Oracle, at: nat)
    requires TraceIs(f, u) && o(at) == 2
    ensures Exec(Repeat(f), o, at).trace == u + u
  {
    var a := Exec(f, o, at + 1);
    var b := Exec(f, o, a.next);
    assert ExecTimes(f, 0, o, b.next) == Outcome([], b.next, false);
    assert ExecTimes(f, 1, o, a.next).trace == u + [] == u;
  }

  /** A loop is walked once: its second round can write after the call of the first. */
  lemma LoopHidesCall(call: Node, write: Node, o: Oracle)
    requires Raises(call, ExternalCall) && Raises(write, StateWrite) && forall k :: o(k) == 2
    ensures Missed([Loop(Absent, Compound([write, call]))], o)
  {
    LoopEvents(call, write);
    LoopBehaviour(call, write);
    LoopTrace(Behaviour(write), Behaviour(call), o);
    CallThenWriteIsHazard();
  }

  lemma LoopEvents(call: Node, write: Node)
    requires Raises(call, ExternalCall) && Raises(write, StateWrite)
    ensures EventsAll([Loop(Absent, Compound([write, call]))]) == [StateWrite] + [ExternalCall]
  {
    var round := Compound([write, call]);
    SingleParts(Loop(Absent, round));
    PairParts(Absent, round);
    PairParts(write, call);
    assert Events(Absent) == [];
    assert Events(round) == [StateWrite] + [ExternalCall];
  }

  lemma LoopBehaviour(call: Node, write: Node)
    ensures var once := Then(Then(Behaviour(write), Then(Behaviour(call), Nothing)), Nothing);
      BehaviourAll([Loop(Absent, Compound([write, call]))]) ==
      Then(Then(Then(Nothing, Nothing), Repeat(Then(once, Then(Nothing, Nothing)))), Nothing)
  {
    var round := Compound([write, call]);
    PairBehaviour(write, call);
    assert Behaviour(Absent) == Then(Nothing, Nothing);
    SingleParts(Loop(Absent, round));
  }

  lemma LoopTrace(w: Flow, c: Flow, o: Oracle)
    requires TraceIs(w, [StateWrite]) && TraceIs(c, [ExternalCall]) && forall k :: o(k) == 2
    ensures var once := Then(Then(w, Then(c, Nothing)), Nothing);
      Hazard(Exec(Then(Then(Then(Nothing, Nothing), Repeat(Then(once, Then(Nothing, Nothing)))), Nothing), o, 0).trace)
  {
    var t := [StateWrite] + [ExternalCall];
    var once := Then(Then(w, Then(c, Nothing)), Nothing);
    EndTraceIs(c, [ExternalCall]);
    ThenTraceIs(w, Then(c, Nothing), [StateWrite], [ExternalCall]);
    EndTraceIs(Then(w, Then(c, Nothing)), t);
    EndTraceIs(Nothing, []);
    ThenTraceIs(once, Then(Nothing, Nothing), t, []);
    assert t + [] == t;
    var again := Repeat(Then(once, Then(Nothing, Nothing)));
    RepeatTrace(Then(once, Then(Nothing, Nothing)), t, o, 0);
    var start := Then(Nothing, Nothing);
    var first := Exec(start, o, 0);
    assert first == Outcome([], 0, false);
    var body := Exec(Then(start, again), o, 0);
    assert body.trace == [] + (t + t) == t + t;
    var all := Exec(Then(Then(start, again), Nothing), o, 0);
    EndKeepsTrace(Then(start, again), o);
    assert all.trace == t + t;
    assert all.trace[1] == ExternalCall && all.trace[2] == StateWrite;
  }

  ghost predicate ShortTraces(f: Flow) {
    forall o: Oracle, at: nat :: |Exec(f, o, at).trace| <= 1
  }

  lemma ArmShortTraces(guard: Flow, result: Flow, rest: Flow)
    requires TraceIs(guard, []) && ShortTraces(result) && ShortTraces(rest)
    ensures ShortTraces(Either(Then(guard, Either(result, rest)), rest))
  {
    forall o: Oracle, at: nat ensures |Exec(Then(guard, Either(result, rest)), o, at).trace| <= 1 {
      var a := Exec(guard, o, at);
      assert |Exec(Either(result, rest), o, a.next).trace| <= 1;
    }
  }

  lemma BranchTraces(call: Flow, write: Flow, o: Oracle)
    requires TraceIs(call, [ExternalCall]) && TraceIs(write, [StateWrite])
    ensures var skip := Then(Nothing, Nothing);
      var last := Either(Then(skip, Either(write, Nothing)), Nothing);
      var both := Either(Then(skip, Either(call, last)), last);
      !Hazard(Exec(Then(Then(skip, both), Nothing), o, 0).trace)
  {
    var skip := Then(Nothing, Nothing);
    var last := Either(Then(skip, Either(write, Nothing)), Nothing);
    var both := Either(Then(skip, Either(call, last)), last);
    EndTraceIs(Nothing, []);
    ArmShortTraces(skip, write, Nothing);
    ArmShortTraces(skip, call, last);
    ThenShortTraces(skip, both);
    EndKeepsTrace(Then(skip, both), o);
    var body := Exec(Then(skip, both), o, 0);
    assert |body.trace| <= 1;
  }

  lemma ThenShortTraces(a: Flow, b: Flow)
    requires TraceIs(a, []) && ShortTraces(b)
    ensures ShortTraces(Then(a, b))
  {
  }

  /** Branches are walked one after the other: a call and a write that exclude each other are still reported. */
  lemma BranchesAreOverReported(call: Node, write: Node, o: Oracle)
    requires Raises(call, ExternalCall) && Raises(write, StateWrite)
    ensures var body := [Match(Absent, [Arm(Absent, call), Arm(Absent, write)])];
      Hazard(EventsAll(body)) && !Hazard(Exec(BehaviourAll(body), o, 0).trace)
  {
    BranchEvents(call, write);
    BranchBehaviour(call, write);
    CallThenWriteIsHazard();
    BranchTraces(Behaviour(call), Behaviour(write), o);
  }

  lemma BranchEvents(call: Node, write: Node)
    requires Raises(call, ExternalCall) && Raises(write, StateWrite)
    ensures EventsAll([Match(Absent, [Arm(Absent, call), Arm(Absent, write)])]) == [ExternalCall] + [StateWrite]
  {
    UnguardedArmEvents(call);
    UnguardedArmEvents(write);
    ChoiceEvents(Absent, Arm(Absent, call), Arm(Absent, write));
    assert Events(Absent) == [];
  }

  lemma UnguardedArmEvents(result: Node)
    ensures Events(Arm(Absent, result)) == Events(result)
  {
    ArmEvents(Arm(Absent, result));
    assert Events(Absent) == [];
  }

  lemma ArmEvents(arm: Node)
    requires arm.Arm?
    ensures Events(arm) == Events(arm.guard) + Events(arm.result)
  {
    PairParts(arm.guard, arm.result);
  }

  lemma MatchEvents(scrutinee: Node, arms: seq<Node>)
    ensures Events(Match(scrutinee, arms)) == EventsAll([scrutinee] + arms)
  {
    var n := Match(scrutinee, arms);
    assert Visited(n) == [scrutinee] + arms && Own(n) == [];
  }

  lemma ChoiceEvents(scrutinee: Node, a: Node, b: Node)
    ensures EventsAll([Match(scrutinee, [a, b])]) == Events(scrutinee) + (Events(a) + Events(b))
  {
    SingleParts(Match(scrutinee, [a, b]));
    MatchEvents(scrutinee, [a, b]);
    ConsParts(scrutinee, [a, b]);
    PairParts(a, b);
  }

  lemma BranchBehaviour(call: Node, write: Node)
    ensures var skip := Then(Nothing, Nothing);
      var last := Either(Then(skip, Either(Behaviour(write), Nothing)), Nothing);
      var both := Either(Then(skip, Either(Behaviour(call), last)), last);
      BehaviourAll([Match(Absent, [Arm(Absent, call), Arm(Absent, write)])]) == Then(Then(skip, both), Nothing)
  {
    var one, two := Arm(Absent, call), Arm(Absent, write);
    assert Behaviour(Absent) == Then(Nothing, Nothing);
    assert [one, two][1..] == [two] && [two][1..] == [];
    var skip := Then(Nothing, Nothing);
    var last := Either(Then(skip, Either(Behaviour(write), Nothing)), Nothing);
    assert ArmsBehaviour([]) == Nothing;
    assert ArmsBehaviour([two]) == last;
    assert ArmsBehaviour([one, two]) == Either(Then(skip, Either(Behaviour(call), last)), last);
    SingleParts(Match(Absent, [one, two]));
  }
}
