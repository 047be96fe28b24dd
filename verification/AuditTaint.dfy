/**
  Soundness of the division taint: the flag the visitor raises is compared with
  the definitions of the multiplied values, expanded through earlier bindings.
 */
module AuditTaint {
  import opened Audit

  // ----- Straight-line bodies ---------------------------------------------------

  /** An expression that neither binds names nor branches into other statements. */
  predicate Plain(n: Node)
    decreases Size(n), 0
  {
    !n.Match? && !n.Arm? && !n.Loop? && !n.Let? && !n.Declare? && PlainAll(SubNodes(n))
  }

  predicate PlainAll(ns: seq<Node>)
    decreases SizeAll(ns), 1
  {
    ns == [] || (Plain(ns[0]) && PlainAll(ns[1..]))
  }

  /** A binding of a plain expression, a declaration, or a plain expression, assignments among them. */
  predicate StraightLine(n: Node) {
    match n
    case Let(_, init, diverge) => Plain(init) && diverge == Absent
    case Declare(_) => true
    case _ => Plain(n)
  }

  predicate StraightLineBody(body: seq<Node>) {
    body == [] || (StraightLine(body[0]) && StraightLineBody(body[1..]))
  }

  // ----- What the bindings mean ---------------------------------------------------

  /** The full expansion of each name bound so far. */
  type Env = map<string, Node>

  function Expand(n: Node, env: Env): Node
    decreases Size(n), 0
  {
    match n
    case Path(segments) => if |segments| == 1 && segments[0] in env then env[segments[0]] else n
    case Wrap(e) => Wrap(Expand(e, env))
    case Binary(op, l, r) => Binary(op, Expand(l, env), Expand(r, env))
    case Assign(t, v) => Assign(Expand(t, env), Expand(v, env))
    case Call(f, args) => Call(Expand(f, env), ExpandAll(args, env))
    case MethodCall(r, name, args) => MethodCall(Expand(r, env), name, ExpandAll(args, env))
    case Compound(parts) => Compound(ExpandAll(parts, env))
    case MayExit(e) => MayExit(Expand(e, env))
    case _ => n
  }

  function ExpandAll(ns: seq<Node>, env: Env): seq<Node>
    decreases SizeAll(ns), 1
  {
    if ns == [] then [] else [Expand(ns[0], env)] + ExpandAll(ns[1..], env)
  }

  function Names(pat: Pattern): set<string> {
    match pat
    case Ident(x) => {x}
    case Typed(x) => {x}
    case Destructuring(names) => names
  }

  predicate IsName(n: Node) {
    n.Path? && |n.segments| == 1
  }

  /** What a compound assignment computes. */
  function Operator(op: BinOp): BinOp {
    match op
    case MulAssign => Mul
    case DivAssign => Div
    case _ => OtherOp
  }

  /**
    The definitions after a statement. A binding defines its names by the
    initialiser, each of several names by the whole of it; an assignment to a name
    defines it anew.
   */
  function Define(n: Node, env: Env): Env {
    match n
    case Let(pat, init, _) => env + map x | x in Names(pat) :: Expand(init, env)
    case Declare(pat) => env - Names(pat)
    case Assign(target, value) => if IsName(target) then env[target.segments[0] := Expand(value, env)] else env
    case Binary(op, l, r) =>
      if Assigns(op) && IsName(l) then env[l.segments[0] := Binary(Operator(op), Expand(l, env), Expand(r, env))] else env
    case _ => env
  }

  predicate DividesIn(n: Node, env: Env) {
    ContainsDivision(Expand(n, env))
  }

  /** A multiplication, plain or compound, with an operand whose expansion contains a division that is not constant. */
  predicate IsQuotientProduct(n: Node, env: Env) {
    n.Binary? && (n.op == Mul || n.op == MulAssign) && (DividesIn(n.left, env) || DividesIn(n.right, env))
  }

  predicate MultipliesQuotient(n: Node, env: Env)
    decreases Size(n), 0
  {
    IsQuotientProduct(n, env) || AnyMultipliesQuotient(SubNodes(n), env)
  }

  predicate AnyMultipliesQuotient(ns: seq<Node>, env: Env)
    decreases SizeAll(ns), 1
  {
    ns != [] && (MultipliesQuotient(ns[0], env) || AnyMultipliesQuotient(ns[1..], env))
  }

  predicate BodyMultipliesQuotient(body: seq<Node>, env: Env) {
    body != [] &&
    (MultipliesQuotient(Evaluated(body[0]), env) ||
     BodyMultipliesQuotient(body[1..], Define(body[0], env)))
  }

  // ----- Expansion and division ----------------------------------------------------

  lemma {:induction false} ConstantStays(n: Node, env: Env)
    requires IsConstant(n)
    ensures Expand(n, env) == n
  {
    match n
    case Wrap(e) => ConstantStays(e, env);
    case Binary(_, l, r) => ConstantStays(l, env); ConstantStays(r, env);
    case _ =>
  }

  predicate Defined(n: Node, env: Env) {
    n.Path? && |n.segments| == 1 && n.segments[0] in env
  }

  lemma ExpandPair(a: Node, b: Node, env: Env)
    ensures ExpandAll([a, b], env) == [Expand(a, env), Expand(b, env)]
  {
    assert [a, b][1..] == [b] && [b][1..] == [];
    assert ExpandAll([b], env) == [Expand(b, env)];
  }

  lemma ExpandCons(a: Node, ns: seq<Node>, env: Env)
    ensures ExpandAll([a] + ns, env) == [Expand(a, env)] + ExpandAll(ns, env)
  {
    assert ([a] + ns)[1..] == ns;
  }

  /** Expansion goes through to the parts. */
  lemma ExpandParts(n: Node, env: Env)
    requires Plain(n) && !Defined(n, env)
    ensures SubNodes(Expand(n, env)) == ExpandAll(SubNodes(n), env)
  {
    match n
    case Wrap(e) => ExpandCons(e, [], env); assert [e] + [] == [e];
    case MayExit(e) => ExpandCons(e, [], env); assert [e] + [] == [e];
    case Binary(_, l, r) => ExpandPair(l, r, env);
    case Assign(t, v) => ExpandPair(t, v, env);
    case Call(f, args) => ExpandCons(f, args, env);
    case MethodCall(r, _, args) => ExpandCons(r, args, env);
    case _ =>
  }

  /** The tainted names include every bound name whose expansion divides. */
  ghost predicate Tracks(env: Env, taint: set<string>) {
    forall x :: x in env && ContainsDivision(env[x]) ==> x in taint
  }

  predicate AnyDivided(ns: seq<Node>, taint: set<string>) {
    AnyContainsDivision(ns) || AnyUsesAny(ns, taint)
  }

  /** If the expansion of an expression divides, the expression divides or uses a tainted name. */
  lemma {:induction false} DivisionIsSeen(n: Node, env: Env, taint: set<string>)
    requires Plain(n) && Tracks(env, taint) && DividesIn(n, env)
    ensures Divided(n, taint)
    decreases Size(n), 0
  {
    if !Defined(n, env) {
      ExpandParts(n, env);
      if n.Binary? && n.op == Div && IsConstant(n.left) && IsConstant(n.right) {
        ConstantStays(n.left, env);
        ConstantStays(n.right, env);
      }
      if AnyContainsDivision(ExpandAll(SubNodes(n), env)) {
        DivisionIsSeenInAny(SubNodes(n), env, taint);
      }
    }
  }

  lemma {:induction false} DivisionIsSeenInAny(ns: seq<Node>, env: Env, taint: set<string>)
    requires PlainAll(ns) && Tracks(env, taint) && AnyContainsDivision(ExpandAll(ns, env))
    ensures AnyDivided(ns, taint)
    decreases SizeAll(ns), 1
  {
    assert ns != [];
    assert ExpandAll(ns, env)[1..] == ExpandAll(ns[1..], env);
    if DividesIn(ns[0], env) {
      DivisionIsSeen(ns[0], env, taint);
    } else {
      DivisionIsSeenInAny(ns[1..], env, taint);
    }
  }

  lemma PairDivided(a: Node, b: Node, taint: set<string>)
    ensures AnyDivided([a, b], taint) <==> Divided(a, taint) || Divided(b, taint)
    ensures PlainAll([a, b]) <==> Plain(a) && Plain(b)
  {
    assert [a, b][1..] == [b] && [b][1..] == [];
    assert PlainAll([b]) <==> Plain(b);
    assert AnyContainsDivision([b]) <==> ContainsDivision(b);
    assert AnyUsesAny([b], taint) <==> UsesAny(b, taint);
  }

  /** A multiplied quotient makes the whole expression divided. */
  lemma {:induction false} QuotientIsSeen(n: Node, env: Env, taint: set<string>)
    requires Plain(n) && Tracks(env, taint) && MultipliesQuotient(n, env)
    ensures Divided(n, taint)
    decreases Size(n), 0
  {
    if IsQuotientProduct(n, env) {
      PairDivided(n.left, n.right, taint);
      if DividesIn(n.left, env) {
        DivisionIsSeen(n.left, env, taint);
      } else {
        DivisionIsSeen(n.right, env, taint);
      }
    } else {
      QuotientIsSeenInAny(SubNodes(n), env, taint);
    }
  }

  lemma {:induction false} QuotientIsSeenInAny(ns: seq<Node>, env: Env, taint: set<string>)
    requires PlainAll(ns) && Tracks(env, taint) && AnyMultipliesQuotient(ns, env)
    ensures AnyDivided(ns, taint)
    decreases SizeAll(ns), 1
  {
    if MultipliesQuotient(ns[0], env) {
      QuotientIsSeen(ns[0], env, taint);
    } else {
      QuotientIsSeenInAny(ns[1..], env, taint);
    }
  }

  // ----- Walking plain expressions ----------------------------------------------------

  lemma VisitedIsPlain(n: Node)
    requires Plain(n)
    ensures PlainAll(Visited(n))
  {
    if n.Call? {
      assert ([n.callee] + n.args)[1..] == n.args;
    }
  }

  lemma {:induction false} PlainKeepsTaint(n: Node, taint: set<string>)
    requires Plain(n)
    ensures Taint(n, taint) == taint
    decreases Size(n), 0
  {
    VisitedIsPlain(n);
    PlainAllKeepTaint(Visited(n), taint);
  }

  lemma {:induction false} PlainAllKeepTaint(ns: seq<Node>, taint: set<string>)
    requires PlainAll(ns)
    ensures TaintAll(ns, taint) == taint
    decreases SizeAll(ns), 1
  {
    if ns != [] {
      PlainKeepsTaint(ns[0], taint);
      PlainAllKeepTaint(ns[1..], taint);
    }
  }

  /** Every multiplied quotient is written with `*`, and none is in the expression of a callee, which is not walked. */
  predicate Covered(n: Node, env: Env)
    decreases Size(n), 0
  {
    && !(IsQuotientProduct(n, env) && n.op == MulAssign)
    && (n.Call? ==> !MultipliesQuotient(n.callee, env))
    && CoveredAll(SubNodes(n), env)
  }

  predicate CoveredAll(ns: seq<Node>, env: Env)
    decreases SizeAll(ns), 1
  {
    ns == [] || (Covered(ns[0], env) && CoveredAll(ns[1..], env))
  }

  lemma VisitedIsCovered(n: Node, env: Env)
    requires Covered(n, env) && MultipliesQuotient(n, env) && !IsQuotientProduct(n, env)
    ensures CoveredAll(Visited(n), env) && AnyMultipliesQuotient(Visited(n), env)
  {
    if n.Call? {
      assert ([n.callee] + n.args)[1..] == n.args;
    }
  }

  /** The walk meets every multiplied quotient of a plain expression that is covered. */
  lemma {:induction false} QuotientIsFlagged(n: Node, env: Env, taint: set<string>)
    requires Plain(n) && Covered(n, env) && Tracks(env, taint) && MultipliesQuotient(n, env)
    ensures Flags(n, taint)
    decreases Size(n), 0
  {
    if IsQuotientProduct(n, env) {
      PairDivided(n.left, n.right, taint);
      if DividesIn(n.left, env) {
        DivisionIsSeen(n.left, env, taint);
      } else {
        DivisionIsSeen(n.right, env, taint);
      }
    } else {
      VisitedIsCovered(n, env);
      VisitedIsPlain(n);
      QuotientIsFlaggedInAny(Visited(n), env, taint);
    }
  }

  lemma {:induction false} QuotientIsFlaggedInAny(ns: seq<Node>, env: Env, taint: set<string>)
    requires PlainAll(ns) && CoveredAll(ns, env) && Tracks(env, taint) && AnyMultipliesQuotient(ns, env)
    ensures FlagsAll(ns, taint)
    decreases SizeAll(ns), 1
  {
    PlainKeepsTaint(ns[0], taint);
    if MultipliesQuotient(ns[0], env) {
      QuotientIsFlagged(ns[0], env, taint);
    } else {
      QuotientIsFlaggedInAny(ns[1..], env, taint);
    }
  }

  // ----- Walking a body -----------------------------------------------------------------

  /** The expression a statement evaluates. */
  function Evaluated(n: Node): Node {
    if n.Let? then n.init else n
  }

  /**
    What the walk can follow: the expression is covered, and a quotient gets a
    name only through a `let` of that single name without a type annotation.
   */
  ghost predicate Followed(n: Node, env: Env) {
    && Covered(Evaluated(n), env)
    && (!(n.Let? && n.pat.Ident?) ==>
          forall x :: x in Define(n, env) && ContainsDivision(Define(n, env)[x]) ==> x in env && ContainsDivision(env[x]))
  }

  ghost predicate FollowedBody(body: seq<Node>, env: Env) {
    body == [] || (Followed(body[0], env) && FollowedBody(body[1..], Define(body[0], env)))
  }

  lemma LetWalk(n: Node, taint: set<string>)
    requires n.Let? && Plain(n.init) && n.diverge == Absent
    ensures Taint(n, taint) == Bind(n, taint)
    ensures Flags(n, taint) <==> Flags(n.init, Bind(n, taint))
  {
    var after := Bind(n, taint);
    assert [n.init, Absent][1..] == [Absent] && [Absent][1..] == [];
    PlainKeepsTaint(n.init, after);
    assert Taint(Absent, after) == after && !Flags(Absent, after);
    assert TaintAll([Absent], after) == after && !FlagsAll([Absent], after);
  }

  /** A binding is flagged although the taint changes before its initialiser is walked. */
  lemma LetIsFlagged(n: Node, env: Env, taint: set<string>)
    requires StraightLine(n) && n.Let? && Followed(n, env) && Tracks(env, taint)
    ensures Tracks(Define(n, env), Taint(n, taint))
    ensures MultipliesQuotient(n.init, env) ==> Flags(n, taint)
  {
    LetWalk(n, taint);
    if DividesIn(n.init, env) {
      DivisionIsSeen(n.init, env, taint);
    }
    if MultipliesQuotient(n.init, env) {
      QuotientIsSeen(n.init, env, taint);
      assert Tracks(env, Bind(n, taint));
      QuotientIsFlagged(n.init, env, Bind(n, taint));
    }
  }

  /** Every multiplied quotient of a straight-line body that the walk can follow raises the flag. */
  lemma {:induction false} TaintIsSound(body: seq<Node>, env: Env, taint: set<string>)
    requires StraightLineBody(body) && FollowedBody(body, env) && Tracks(env, taint)
    requires BodyMultipliesQuotient(body, env)
    ensures FlagsAll(body, taint)
  {
    var n, rest := body[0], body[1..];
    if n.Let? {
      LetIsFlagged(n, env, taint);
    } else if n.Declare? {
      assert Taint(n, taint) == taint && !MultipliesQuotient(n, env);
    } else {
      PlainKeepsTaint(n, taint);
      if MultipliesQuotient(n, env) {
        QuotientIsFlagged(n, env, taint);
      }
    }
    if BodyMultipliesQuotient(rest, Define(n, env)) {
      TaintIsSound(rest, Define(n, env), Taint(n, taint));
    }
  }

  // ----- When nothing is reported that is not there ----------------------------------------------

  /** A division that has a name among its operands but expands to a division of constants. */
  predicate FoldsAway(n: Node, env: Env) {
    && n.Binary? && n.op == Div && !(IsConstant(n.left) && IsConstant(n.right))
    && IsConstant(Expand(n.left, env)) && IsConstant(Expand(n.right, env))
  }

  /** No division of the expression folds away. */
  predicate Unfolded(n: Node, env: Env)
    decreases Size(n), 0
  {
    !FoldsAway(n, env) && UnfoldedAll(SubNodes(n), env)
  }

  predicate UnfoldedAll(ns: seq<Node>, env: Env)
    decreases SizeAll(ns), 1
  {
    ns == [] || (Unfolded(ns[0], env) && UnfoldedAll(ns[1..], env))
  }

  /** The tainted names are exactly the bound names whose expansion divides. */
  ghost predicate Exact(env: Env, taint: set<string>) {
    forall x :: x in taint <==> x in env && ContainsDivision(env[x])
  }

  /** An expression that divides or uses a tainted name has an expansion that divides. */
  lemma {:induction false} DividedIsReal(n: Node, env: Env, taint: set<string>)
    requires Plain(n) && Unfolded(n, env) && Exact(env, taint) && Divided(n, taint)
    ensures DividesIn(n, env)
    decreases Size(n), 0
  {
    if Defined(n, env) {
      assert Visited(n) == [] && SubNodes(n) == [];
      assert !AnyContainsDivision([]) && !AnyUsesAny([], taint);
    } else {
      ExpandParts(n, env);
      if AnyDivided(SubNodes(n), taint) {
        DividedIsRealInAny(SubNodes(n), env, taint);
      }
    }
  }

  lemma {:induction false} DividedIsRealInAny(ns: seq<Node>, env: Env, taint: set<string>)
    requires PlainAll(ns) && UnfoldedAll(ns, env) && Exact(env, taint) && AnyDivided(ns, taint)
    ensures AnyContainsDivision(ExpandAll(ns, env))
    decreases SizeAll(ns), 1
  {
    assert ExpandAll(ns, env)[1..] == ExpandAll(ns[1..], env);
    if Divided(ns[0], taint) {
      DividedIsReal(ns[0], env, taint);
    } else {
      DividedIsRealInAny(ns[1..], env, taint);
    }
  }

  lemma VisitedIsUnfolded(n: Node, env: Env)
    requires Unfolded(n, env)
    ensures UnfoldedAll(Visited(n), env)
    ensures AnyMultipliesQuotient(Visited(n), env) ==> AnyMultipliesQuotient(SubNodes(n), env)
  {
    if n.Call? {
      assert ([n.callee] + n.args)[1..] == n.args;
    }
  }

  lemma PairUnfolded(a: Node, b: Node, env: Env)
    ensures UnfoldedAll([a, b], env) <==> Unfolded(a, env) && Unfolded(b, env)
  {
    assert [a, b][1..] == [b] && [b][1..] == [];
    assert UnfoldedAll([b], env) <==> Unfolded(b, env);
  }

  /** A flagged plain expression multiplies a quotient. */
  lemma {:induction false} FlagIsReal(n: Node, env: Env, taint: set<string>)
    requires Plain(n) && Unfolded(n, env) && Exact(env, taint) && Flags(n, taint)
    ensures MultipliesQuotient(n, env)
    decreases Size(n), 0
  {
    if MultipliesDivided(n, taint) {
      PairDivided(n.left, n.right, taint);
      PairUnfolded(n.left, n.right, env);
      if Divided(n.left, taint) {
        DividedIsReal(n.left, env, taint);
      } else {
        DividedIsReal(n.right, env, taint);
      }
    } else {
      VisitedIsPlain(n);
      VisitedIsUnfolded(n, env);
      FlagIsRealInAny(Visited(n), env, taint);
    }
  }

  lemma {:induction false} FlagIsRealInAny(ns: seq<Node>, env: Env, taint: set<string>)
    requires PlainAll(ns) && UnfoldedAll(ns, env) && Exact(env, taint) && FlagsAll(ns, taint)
    ensures AnyMultipliesQuotient(ns, env)
    decreases SizeAll(ns), 1
  {
    PlainKeepsTaint(ns[0], taint);
    if Flags(ns[0], taint) {
      FlagIsReal(ns[0], env, taint);
    } else {
      FlagIsRealInAny(ns[1..], env, taint);
    }
  }

  // ----- Taints that differ in names an expression does not use --------------------------------------

  lemma {:induction false} UsesFewer(n: Node, small: set<string>, large: set<string>)
    requires UsesAny(n, small) && forall x :: x in small && UsesAny(n, {x}) ==> x in large
    ensures UsesAny(n, large)
    decreases Size(n), 0
  {
    if AnyUsesAny(SubNodes(n), small) {
      UsesFewerInAny(SubNodes(n), small, large);
    }
  }

  lemma {:induction false} UsesFewerInAny(ns: seq<Node>, small: set<string>, large: set<string>)
    requires AnyUsesAny(ns, small) && forall x :: x in small && AnyUsesAny(ns, {x}) ==> x in large
    ensures AnyUsesAny(ns, large)
    decreases SizeAll(ns), 1
  {
    if UsesAny(ns[0], small) {
      UsesFewer(ns[0], small, large);
    } else {
      UsesFewerInAny(ns[1..], small, large);
    }
  }

  /** Names the expression does not use make no difference to its flag. */
  lemma {:induction false} FlagsFewer(n: Node, small: set<string>, large: set<string>)
    requires Plain(n) && Flags(n, small) && forall x :: x in small && UsesAny(n, {x}) ==> x in large
    ensures Flags(n, large)
    decreases Size(n), 0
  {
    if MultipliesDivided(n, small) {
      OperandsUse(n.left, n.right, small, large);
    } else {
      VisitedIsPlain(n);
      forall x | AnyUsesAny(Visited(n), {x}) ensures UsesAny(n, {x}) {
        VisitedUses(n, {x});
      }
      FlagsFewerInAny(Visited(n), small, large);
    }
  }

  lemma VisitedUses(n: Node, names: set<string>)
    requires AnyUsesAny(Visited(n), names)
    ensures UsesAny(n, names)
  {
    if n.Call? {
      assert ([n.callee] + n.args)[1..] == n.args;
    }
  }

  lemma OperandsUse(a: Node, b: Node, small: set<string>, large: set<string>)
    requires forall x :: x in small && AnyUsesAny([a, b], {x}) ==> x in large
    requires Divided(a, small) || Divided(b, small)
    ensures Divided(a, large) || Divided(b, large)
  {
    forall x ensures AnyUsesAny([a, b], {x}) <==> UsesAny(a, {x}) || UsesAny(b, {x}) {
      assert [a, b][1..] == [b] && [b][1..] == [];
      assert AnyUsesAny([b], {x}) <==> UsesAny(b, {x});
    }
    if UsesAny(a, small) {
      UsesFewer(a, small, large);
    }
    if UsesAny(b, small) {
      UsesFewer(b, small, large);
    }
  }

  lemma {:induction false} FlagsFewerInAny(ns: seq<Node>, small: set<string>, large: set<string>)
    requires PlainAll(ns) && FlagsAll(ns, small) && forall x :: x in small && AnyUsesAny(ns, {x}) ==> x in large
    ensures FlagsAll(ns, large)
    decreases SizeAll(ns), 1
  {
    PlainKeepsTaint(ns[0], small);
    PlainKeepsTaint(ns[0], large);
    if Flags(ns[0], small) {
      FlagsFewer(ns[0], small, large);
    } else {
      FlagsFewerInAny(ns[1..], small, large);
    }
  }

  // ----- Bodies on which the check is exact ---------------------------------------------------------------

  ghost predicate DividesAs(x: string, env: Env) {
    x in env && ContainsDivision(env[x])
  }

  /**
    No division folds away; a binding that makes its name a quotient does not use
    the name, unless that was a quotient before; and no other statement changes
    which names are quotients.
   */
  ghost predicate Steady(n: Node, env: Env) {
    && Unfolded(Evaluated(n), env)
    && if n.Let? && n.pat.Ident? then
         DividesIn(n.init, env) && UsesAny(n.init, {n.pat.name}) ==> DividesAs(n.pat.name, env)
       else
         forall x :: DividesAs(x, Define(n, env)) <==> DividesAs(x, env)
  }

  ghost predicate SteadyBody(body: seq<Node>, env: Env) {
    body == [] || (Steady(body[0], env) && SteadyBody(body[1..], Define(body[0], env)))
  }

  /** A binding of a single name makes it tainted exactly if its expanded initialiser divides, and leaves all others as they were. */
  lemma LetTaintsExactly(n: Node, env: Env, taint: set<string>)
    requires StraightLine(n) && n.Let? && n.pat.Ident? && Unfolded(n.init, env) && Exact(env, taint)
    ensures forall x :: x in Taint(n, taint) <==> if x == n.pat.name then DividesIn(n.init, env) else x in taint
  {
    LetWalk(n, taint);
    if Divided(n.init, taint) {
      DividedIsReal(n.init, env, taint);
    }
    if DividesIn(n.init, env) {
      DivisionIsSeen(n.init, env, taint);
    }
  }

  /** After every statement of a steady body the tainted names are exactly the quotients. */
  lemma StepStaysExact(n: Node, env: Env, taint: set<string>)
    requires StraightLine(n) && Steady(n, env) && Exact(env, taint)
    ensures Exact(Define(n, env), Taint(n, taint))
  {
    if n.Let? && n.pat.Ident? {
      LetTaintsExactly(n, env, taint);
    } else {
      if n.Let? {
        LetWalk(n, taint);
      } else if !n.Declare? {
        PlainKeepsTaint(n, taint);
      }
      forall x ensures x in Taint(n, taint) <==> DividesAs(x, Define(n, env)) {
        assert DividesAs(x, Define(n, env)) <==> DividesAs(x, env);
      }
    }
  }

  /** A flagged statement of a steady body multiplies a quotient, although a binding changes the taint before its initialiser is walked. */
  lemma StepFlagIsReal(n: Node, env: Env, taint: set<string>)
    requires StraightLine(n) && Steady(n, env) && Exact(env, taint) && Flags(n, taint)
    ensures MultipliesQuotient(Evaluated(n), env)
  {
    if n.Let? {
      LetWalk(n, taint);
      var after := Bind(n, taint);
      forall x | x in after && UsesAny(n.init, {x}) ensures x in taint {
        if x !in taint {
          assert x == n.pat.name && Divided(n.init, taint);
          DividedIsReal(n.init, env, taint);
        }
      }
      FlagsFewer(n.init, after, taint);
      FlagIsReal(n.init, env, taint);
    } else if !n.Declare? {
      FlagIsReal(n, env, taint);
    }
  }

  /** A steady straight-line body is flagged only if it multiplies a quotient. */
  lemma {:induction false} NothingIsOverReported(body: seq<Node>, env: Env, taint: set<string>)
    requires StraightLineBody(body) && SteadyBody(body, env) && Exact(env, taint) && FlagsAll(body, taint)
    ensures BodyMultipliesQuotient(body, env)
  {
    if Flags(body[0], taint) {
      StepFlagIsReal(body[0], env, taint);
    } else {
      StepStaysExact(body[0], env, taint);
      NothingIsOverReported(body[1..], Define(body[0], env), Taint(body[0], taint));
    }
  }

  /** On straight-line bodies that are followed and steady the check is exact. */
  lemma TaintIsExact(body: seq<Node>)
    requires StraightLineBody(body) && FollowedBody(body, map[]) && SteadyBody(body, map[])
    ensures FlagsAll(body, {}) <==> BodyMultipliesQuotient(body, map[])
  {
    if FlagsAll(body, {}) {
      NothingIsOverReported(body, map[], {});
    }
    if BodyMultipliesQuotient(body, map[]) {
      TaintIsSound(body, map[], {});
    }
  }

  // ----- Where the taint falls short, and where it goes too far -----------------------------

  const X := Path(["x"])
  const Y := Path(["y"])
  const Quotient := Binary(Div, Y, Y)

  lemma Leaves(taint: set<string>)
    ensures !ContainsDivision(X) && !ContainsDivision(Y) && ContainsDivision(Quotient)
    ensures (UsesAny(X, taint) <==> "x" in taint) && (UsesAny(Y, taint) <==> "y" in taint)
    ensures Taint(X, taint) == taint && Taint(Y, taint) == taint && !Flags(X, taint) && !Flags(Y, taint)
  {
  }

  lemma PairWalk(a: Node, b: Node, taint: set<string>)
    requires Taint(a, taint) == taint && Taint(b, taint) == taint
    ensures TaintAll([a, b], taint) == taint && (FlagsAll([a, b], taint) <==> Flags(a, taint) || Flags(b, taint))
  {
    assert [a, b][1..] == [b] && [b][1..] == [];
    assert !FlagsAll([], Taint(b, taint));
    assert TaintAll([b], taint) == taint;
    assert FlagsAll([b], taint) <==> Flags(b, taint);
  }

  lemma ProductWalk(op: BinOp, a: Node, b: Node, taint: set<string>)
    requires Taint(a, taint) == taint && Taint(b, taint) == taint && !Flags(a, taint) && !Flags(b, taint)
    ensures Taint(Binary(op, a, b), taint) == taint
    ensures Flags(Binary(op, a, b), taint) <==> MultipliesDivided(Binary(op, a, b), taint)
  {
    PairWalk(a, b, taint);
  }

  /** The statement gives the name `x` a quotient unseen, so that `x * y` after it passes unnoticed. */
  ghost predicate HidesQuotient(first: Node) {
    var body := [first, Product];
    StraightLineBody(body) && BodyMultipliesQuotient(body, map[]) && !FlagsAll(body, {})
  }

  const Product := Binary(Mul, X, Y)

  lemma ProductOfNames()
    ensures Plain(X) && Plain(Y) && Plain(Product) && Taint(Product, {}) == {} && !Flags(Product, {})
    ensures forall env: Env :: "x" in env && ContainsDivision(env["x"]) ==> MultipliesQuotient(Product, env)
  {
    Leaves({});
    PairDivided(X, Y, {});
    ProductWalk(Mul, X, Y, {});
    forall env: Env | "x" in env && ContainsDivision(env["x"]) ensures DividesIn(X, env) {
    }
  }

  lemma UnseenNameHidesQuotient(first: Node)
    requires StraightLine(first) && Taint(first, {}) == {} && !Flags(first, {})
    requires "x" in Define(first, map[]) && ContainsDivision(Define(first, map[])["x"])
    ensures HidesQuotient(first)
  {
    var body := [first, Product];
    assert body[1..] == [Product] && [Product][1..] == [];
    ProductOfNames();
    PairWalk(first, Product, {});
    assert BodyMultipliesQuotient([Product], Define(first, map[]));
  }

  lemma QuotientWalk()
    ensures Plain(Y) && Plain(X) && Plain(Quotient) && Taint(Quotient, {}) == {} && !Flags(Quotient, {})
    ensures Expand(Quotient, map[]) == Quotient
  {
    Leaves({});
    PairDivided(Y, Y, {});
    ProductWalk(Div, Y, Y, {});
  }

  lemma UnseenLetHidesQuotient(pat: Pattern, init: Node)
    requires !pat.Ident? && "x" in Names(pat) && Plain(init) && !Flags(init, {})
    requires Expand(init, map[]) == init && ContainsDivision(init)
    ensures HidesQuotient(Let(pat, init, Absent))
  {
    var binding := Let(pat, init, Absent);
    LetWalk(binding, {});
    assert Define(binding, map[])["x"] == init;
    UnseenNameHidesQuotient(binding);
  }

  /** A binding with a type annotation is not followed: `let x: T = y / y; x * y` passes unnoticed. */
  lemma TypedBindingHidesQuotient()
    ensures HidesQuotient(Let(Typed("x"), Quotient, Absent))
  {
    QuotientWalk();
    Leaves({});
    UnseenLetHidesQuotient(Typed("x"), Quotient);
  }

  /** Neither is a pattern of several names: `let (x, z) = (y / y, y); x * y`. */
  lemma DestructuringHidesQuotient()
    ensures HidesQuotient(Let(Destructuring({"x", "z"}), Compound([Quotient, Y]), Absent))
  {
    var pair := Compound([Quotient, Y]);
    QuotientWalk();
    Leaves({});
    PairDivided(Quotient, Y, {});
    PairWalk(Quotient, Y, {});
    ExpandPair(Quotient, Y, map[]);
    assert Plain(pair) && Expand(pair, map[]) == pair && ContainsDivision(pair);
    UnseenLetHidesQuotient(Destructuring({"x", "z"}), pair);
  }

  /** Nor an assignment: `x = y / y; x * y`. */
  lemma AssignmentHidesQuotient()
    ensures HidesQuotient(Assign(X, Quotient))
  {
    QuotientWalk();
    Leaves({});
    PairDivided(X, Quotient, {});
    PairWalk(X, Quotient, {});
    UnseenNameHidesQuotient(Assign(X, Quotient));
  }

  /** Nor a compound division: `x /= y; x * y`. */
  lemma CompoundDivisionHidesQuotient()
    ensures HidesQuotient(Binary(DivAssign, X, Y))
  {
    var division := Binary(DivAssign, X, Y);
    Leaves({});
    ProductOfNames();
    PairDivided(X, Y, {});
    ProductWalk(DivAssign, X, Y, {});
    assert Define(division, map[])["x"] == Binary(Div, X, Y);
    UnseenNameHidesQuotient(division);
  }

  /** A compound multiplication by a quotient, `x *= y / y`, is not taken for a multiplication. */
  lemma CompoundProductHidesQuotient()
    ensures var body := [Binary(MulAssign, X, Quotient)];
      StraightLineBody(body) && BodyMultipliesQuotient(body, map[]) && forall taint :: !FlagsAll(body, taint)
  {
    var product := Binary(MulAssign, X, Quotient);
    assert [product][1..] == [];
    QuotientWalk();
    Leaves({});
    PairDivided(X, Quotient, {});
    assert IsQuotientProduct(product, map[]);
    forall taint ensures !Flags(product, taint) {
      Leaves(taint);
      ProductWalk(Div, Y, Y, taint);
      ProductWalk(MulAssign, X, Quotient, taint);
    }
  }

  lemma WrapsProduct(n: Node, env: Env)
    requires Plain(n) && MultipliesQuotient(n, env)
    ensures Plain(Wrap(n)) && MultipliesQuotient(Wrap(n), env)
  {
    assert [n][1..] == [];
    assert PlainAll([n]) && AnyMultipliesQuotient([n], env);
  }

  lemma CallsProduct(f: Node, env: Env)
    requires Plain(f) && MultipliesQuotient(f, env)
    ensures Plain(Call(f, [])) && MultipliesQuotient(Call(f, []), env)
  {
    assert [f] + [] == [f] && [f][1..] == [];
    assert PlainAll([f]) && AnyMultipliesQuotient([f], env);
  }

  /** The expression of a callee is not walked, so a product inside it passes unnoticed. */
  lemma CalleeHidesQuotient(product: Node, env: Env)
    requires Plain(product) && MultipliesQuotient(product, env)
    ensures var n := Call(Wrap(product), []);
      Plain(n) && MultipliesQuotient(n, env) && forall taint :: !Flags(n, taint)
  {
    WrapsProduct(product, env);
    CallsProduct(Wrap(product), env);
  }

  lemma FlaggedAfter(first: Node, second: Node)
    requires "x" in Taint(second, Taint(first, {}))
    ensures FlagsAll([first, second, Product], {})
  {
    var body, taint := [first, second, Product], Taint(second, Taint(first, {}));
    assert body[1..] == [second, Product] && [second, Product][1..] == [Product];
    Leaves(taint);
    assert MultipliesDivided(Product, taint);
    assert FlagsAll([Product], taint);
  }

  lemma NotFlaggedAfter(first: Node, second: Node)
    requires !Flags(first, {}) && !Flags(second, Taint(first, {})) && Taint(second, Taint(first, {})) == {}
    ensures !FlagsAll([first, second, Product], {})
  {
    var body := [first, second, Product];
    assert body[1..] == [second, Product] && [second, Product][1..] == [Product] && [Product][1..] == [];
    ProductOfNames();
    assert !FlagsAll([Product], {});
  }

  lemma NoQuotientAfter(first: Node, second: Node)
    requires !MultipliesQuotient(Evaluated(first), map[]) && !MultipliesQuotient(Evaluated(second), Define(first, map[]))
    requires var env := Define(second, Define(first, map[])); !DividesIn(X, env) && !DividesIn(Y, env)
    ensures !BodyMultipliesQuotient([first, second, Product], map[])
  {
    var body, env := [first, second, Product], Define(second, Define(first, map[]));
    assert body[1..] == [second, Product] && [second, Product][1..] == [Product] && [Product][1..] == [];
    NoQuotientInPair(X, Y, env);
    assert SubNodes(X) == [] && SubNodes(Y) == [];
    assert !MultipliesQuotient(X, env) && !MultipliesQuotient(Y, env);
    assert !BodyMultipliesQuotient([Product], env);
  }

  const Two := Literal(true)
  const K := Path(["k"])
  const Fraction := Binary(Div, Two, K)

  /** A name bound to a constant counts as no constant: `let k = 2; let x = 4 / k; x * y` is flagged, though it divides constants only. */
  lemma FoldedDivisionIsOverReported()
    ensures var body := [Let(Ident("k"), Two, Absent), Let(Ident("x"), Fraction, Absent), Product];
      FlagsAll(body, {}) && !BodyMultipliesQuotient(body, map[])
  {
    var first, second := Let(Ident("k"), Two, Absent), Let(Ident("x"), Fraction, Absent);
    ConstantLet();
    FractionLet();
    FlaggedAfter(first, second);
    FractionMeansConstants();
    NoQuotientAfter(first, second);
  }

  lemma ConstantLet()
    ensures Taint(Let(Ident("k"), Two, Absent), {}) == {}
  {
    LetWalk(Let(Ident("k"), Two, Absent), {});
    assert Visited(Two) == [] && !AnyUsesAny([], {});
  }

  lemma FractionLet()
    ensures Taint(Let(Ident("x"), Fraction, Absent), {}) == {"x"}
  {
    PairDivided(Two, K, {});
    assert Plain(Fraction) && ContainsDivision(Fraction);
    LetWalk(Let(Ident("x"), Fraction, Absent), {});
  }

  lemma QuotientLet()
    ensures Taint(Let(Ident("x"), Quotient, Absent), {}) == {"x"} && !Flags(Let(Ident("x"), Quotient, Absent), {})
  {
    QuotientWalk();
    Leaves({});
    Leaves({"x"});
    ProductWalk(Div, Y, Y, {"x"});
    LetWalk(Let(Ident("x"), Quotient, Absent), {});
  }

  lemma NameLet()
    ensures Taint(Let(Ident("x"), Y, Absent), {"x"}) == {} && !Flags(Let(Ident("x"), Y, Absent), {"x"})
    ensures Taint(Let(Typed("x"), Y, Absent), {"x"}) == {"x"}
  {
    QuotientWalk();
    Leaves({});
    Leaves({"x"});
    LetWalk(Let(Ident("x"), Y, Absent), {"x"});
    LetWalk(Let(Typed("x"), Y, Absent), {"x"});
  }

  lemma RenamedMeansName()
    ensures var env := Define(Let(Typed("x"), Y, Absent), Define(Let(Ident("x"), Quotient, Absent), map[]));
      !DividesIn(X, env) && !DividesIn(Y, env)
  {
    var one := Define(Let(Ident("x"), Quotient, Absent), map[]);
    var env := Define(Let(Typed("x"), Y, Absent), one);
    assert Expand(Y, one) == Y && env["x"] == Y && Expand(X, env) == Y && Expand(Y, env) == Y;
    Leaves({});
  }

  lemma FractionMeansConstants()
    ensures var first, second := Let(Ident("k"), Two, Absent), Let(Ident("x"), Fraction, Absent);
      var env := Define(second, Define(first, map[]));
      && !MultipliesQuotient(Two, map[]) && !MultipliesQuotient(Fraction, Define(first, map[]))
      && !DividesIn(X, env) && !DividesIn(Y, env)
  {
    var one := Define(Let(Ident("k"), Two, Absent), map[]);
    assert one == map["k" := Two];
    FractionExpands(one);
    ConstantsDoNotDivide(Define(Let(Ident("x"), Fraction, Absent), one));
  }

  lemma FractionExpands(env: Env)
    requires "k" in env && env["k"] == Two
    ensures Expand(Fraction, env) == Binary(Div, Two, Two)
    ensures !MultipliesQuotient(Two, map[]) && !MultipliesQuotient(Fraction, env)
  {
    assert Expand(K, env) == Two;
    NoQuotientInPair(Two, K, env);
    assert SubNodes(Two) == [] && SubNodes(K) == [];
  }

  lemma ConstantsDoNotDivide(env: Env)
    requires "x" in env && env["x"] == Binary(Div, Two, Two) && "y" !in env
    ensures !DividesIn(X, env) && !DividesIn(Y, env)
  {
    assert Expand(X, env) == env["x"] && Expand(Y, env) == Y;
    PairDivided(Two, Two, {});
    Leaves({});
  }

  lemma QuotientMultipliesNothing(env: Env)
    ensures !MultipliesQuotient(Quotient, env) && !MultipliesQuotient(Y, env)
  {
    NoQuotientInPair(Y, Y, env);
    assert SubNodes(Y) == [];
  }

  /** Only a `let` of a single name clears it: `let x = y / y; let x: T = y; x * y` is flagged. */
  lemma TypedRebindingIsOverReported()
    ensures var body := [Let(Ident("x"), Quotient, Absent), Let(Typed("x"), Y, Absent), Product];
      FlagsAll(body, {}) && !BodyMultipliesQuotient(body, map[])
  {
    var first, second := Let(Ident("x"), Quotient, Absent), Let(Typed("x"), Y, Absent);
    QuotientLet();
    NameLet();
    FlaggedAfter(first, second);
    QuotientMultipliesNothing(map[]);
    QuotientMultipliesNothing(Define(first, map[]));
    RenamedMeansName();
    NoQuotientAfter(first, second);
  }

  /** But it does clear it: `let x = y / y; let x = y; x * y` is not flagged. */
  lemma RebindingClears()
    ensures !FlagsAll([Let(Ident("x"), Quotient, Absent), Let(Ident("x"), Y, Absent), Product], {})
  {
    var first, second := Let(Ident("x"), Quotient, Absent), Let(Ident("x"), Y, Absent);
    QuotientLet();
    NameLet();
    NotFlaggedAfter(first, second);
  }

  /**
    The name is tainted before its own initialiser is walked, so
    `let x = y / y + x * y` is flagged although the multiplied `x` is the
    earlier, undivided one.
   */
  lemma RebindingIsOverReported()
    ensures var body := [Let(Ident("x"), Binary(OtherOp, Quotient, Binary(Mul, X, Y)), Absent)];
      FlagsAll(body, {}) && !BodyMultipliesQuotient(body, map[])
  {
    RebindingIsFlagged();
    RebindingMultipliesNoQuotient();
  }

  lemma RebindingIsFlagged()
    ensures FlagsAll([Let(Ident("x"), Binary(OtherOp, Quotient, Binary(Mul, X, Y)), Absent)], {})
  {
    var product := Binary(Mul, X, Y);
    var sum := Binary(OtherOp, Quotient, product);
    Leaves({});
    Leaves({"x"});
    PairDivided(Quotient, product, {});
    ProductWalk(Mul, X, Y, {"x"});
    ProductWalk(Div, Y, Y, {"x"});
    PairWalk(Quotient, product, {"x"});
    assert Flags(sum, {"x"});
    PairDivided(X, Y, {});
    PairDivided(Y, Y, {});
    assert Plain(X) && Plain(Y);
    assert Plain(product) && Plain(Quotient);
    var binding := Let(Ident("x"), sum, Absent);
    assert Bind(binding, {}) == {"x"};
    LetWalk(binding, {});
  }

  lemma RebindingMultipliesNoQuotient()
    ensures !BodyMultipliesQuotient([Let(Ident("x"), Binary(OtherOp, Quotient, Binary(Mul, X, Y)), Absent)], map[])
  {
    var none: Env := map[];
    var product := Binary(Mul, X, Y);
    var binding := Let(Ident("x"), Binary(OtherOp, Quotient, product), Absent);
    Leaves({});
    assert Expand(X, none) == X && Expand(Y, none) == Y;
    NoQuotientInPair(X, Y, none);
    NoQuotientInPair(Y, Y, none);
    NoQuotientInPair(Quotient, product, none);
    assert [binding][1..] == [];
  }

  lemma NoQuotientInPair(a: Node, b: Node, env: Env)
    ensures AnyMultipliesQuotient([a, b], env) <==> MultipliesQuotient(a, env) || MultipliesQuotient(b, env)
  {
    assert [a, b][1..] == [b] && [b][1..] == [];
    assert AnyMultipliesQuotient([b], env) <==> MultipliesQuotient(b, env);
  }
}
