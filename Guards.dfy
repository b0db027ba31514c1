/**
  What one visit of `StrictIvars::Processor` (with the eval-call rule it
  inherits from `StrictIvars::BaseProcessor`) computes, as pure functions:
  from a node, the current context (the instance-variable names already
  guarded in this scope) and the next temporary-name counter, `Walk` gives
  the annotations the visit pushes, the context it leaves behind and the
  counter afterwards. Where an eval call's wrapper goes is a parameter:
  the processor's own order and the corrected one. The `Processor` class
  is proved to follow `Walk` in its own order; the lemmas here state what
  the scope and branch discipline guarantees and how the two orders relate.
 */
module Guards {
  import opened Wrappers
  import opened Syntax
  import opened Patch

  /** `EVAL_METHODS`: calls whose arguments are routed through the eval wrapper. */
  const EvalMethods: set<string> := {"class_eval", "module_eval", "instance_eval", "eval"}

  /** Inserted in front of a guarded read of `name`. */
  function GuardOpening(name: string): string {
    "(defined?(" + name + ") ? "
  }

  /** Inserted after a guarded read of `name`. */
  function GuardClosing(name: string): string {
    " : (::Kernel.raise(::StrictIvars::NameError.new(self, :" + name + "))))"
  }

  /** Binds an eval call's receiver to the temporary `local`. */
  function ReceiverOpening(local: string): string {
    "(" + local + " = "
  }

  const ReceiverClosing: string := ")"

  /** Opens the wrapper around an eval call's arguments; `receiver` is `self` or the temporary. */
  function ArgumentsOpening(receiver: string, callName: string): string {
    "*(::StrictIvars.__process_eval_args__(" + receiver + ", :" + callName + ", "
  }

  /** Closes the wrapper; with `...` forwarding the forwarded block is wrapped too. */
  function ArgumentsClosing(forwarding: bool): string {
    if forwarding then ")), &(::StrictIvars.__eval_block_from_forwarding__(...))" else "))"
  }

  function DigitChar(d: nat): char
    requires d < 10
  {
    "0123456789"[d]
  }

  function Decimal(n: nat): string
    decreases n
  {
    if n < 10 then [DigitChar(n)] else Decimal(n / 10) + [DigitChar(n % 10)]
  }

  /** The temporary for the receiver of the eval call that draws counter value `n`. */
  function TempName(n: nat): string {
    "__eval_receiver_" + Decimal(n) + "__"
  }

  lemma DecimalNotEmpty(n: nat)
    ensures |Decimal(n)| >= 1 && (n >= 10 ==> |Decimal(n)| >= 2)
  {
    if n >= 10 {
      DecimalNotEmpty(n / 10);
    }
  }

  /** Different counter values are written as different digit strings. */
  lemma {:induction false} DecimalInjective(m: nat, n: nat)
    requires Decimal(m) == Decimal(n)
    ensures m == n
    decreases m + n
  {
    DecimalNotEmpty(m);
    DecimalNotEmpty(n);
    if m >= 10 && n >= 10 {
      var dm, dn := Decimal(m), Decimal(n);
      assert dm[|dm| - 1] == DigitChar(m % 10);
      assert dn[|dn| - 1] == DigitChar(n % 10);
      assert dm[..|dm| - 1] == Decimal(m / 10);
      assert dn[..|dn| - 1] == Decimal(n / 10);
      DecimalInjective(m / 10, n / 10);
    }
  }

  /**
    Each eval call with a receiver draws its own counter value, so two
    different draws name two different temporaries.
   */
  lemma TempNamesDiffer(m: nat, n: nat)
    requires m != n
    ensures TempName(m) != TempName(n)
  {
    if TempName(m) == TempName(n) {
      var prefix := "__eval_receiver_";
      assert |Decimal(m)| == |Decimal(n)|;
      assert Decimal(m) == TempName(m)[|prefix|..|prefix| + |Decimal(m)|];
      assert Decimal(n) == TempName(n)[|prefix|..|prefix| + |Decimal(n)|];
      DecimalInjective(m, n);
    }
  }

  /** Whether an argument list contains `...` forwarding. */
  function ContainsForwarding(arguments: Node): bool {
    arguments.Arguments? && arguments.forwarding
  }

  /** The two annotations that guard the read of `name` spanning `loc`. */
  function Guard(name: string, loc: Loc): seq<Annotation> {
    [Annotation(loc.start, GuardOpening(name)), Annotation(loc.end, GuardClosing(name))]
  }

  /** What a visit leaves: annotations pushed, the context, the temporary counter. */
  datatype Trace = Trace(emitted: seq<Annotation>, context: set<string>, nextTemp: nat)

  /**
    Where an eval call's wrapper goes relative to the visits of the call's
    parts. `WrapperFirst` is `visit_call_node` as written: the whole
    wrapper is pushed, then `super` visits the receiver, the arguments and
    the block. `WrapAround` pushes each opening before the part it opens
    is visited and each closing after, as the embedded-variable rule does,
    so a guard inside a part closes inside the wrapper. The processor
    follows `WrapperFirst`; the two agree on every tree without an eval
    call (`OrdersAgree`).
   */
  datatype CallOrder = WrapperFirst | WrapAround

  /** Visiting node `n` with context `ctx` and temporary counter `temp`, eval calls wrapped in `order`. */
  function Walk(order: CallOrder, n: Node, ctx: set<string>, temp: nat): (t: Trace)
    ensures ctx <= t.context && temp <= t.nextTemp
    decreases n, 1
  {
    match n
    case IvarRead(name, loc) =>
      if name in ctx then Trace([], ctx, temp) else Trace(Guard(name, loc), ctx + {name}, temp)
    case Scope(_, children, _) =>
      // new_context: the body starts from an empty context, the old one comes back.
      var body := WalkAll(order, children, {}, temp);
      Trace(body.emitted, ctx, body.nextTemp)
    case If(condition, statements, subsequent, _) =>
      // The condition in the current context; each arm in a branch copy of the result.
      var c := Walk(order, condition, ctx, temp);
      var s := WalkOption(order, statements, c.context, c.nextTemp);
      var e := WalkOption(order, subsequent, c.context, s.nextTemp);
      Trace(c.emitted + s.emitted + e.emitted, c.context, e.nextTemp)
    case Case(subject, whens, elseClause, _) =>
      var p := WalkOption(order, subject, ctx, temp);
      var w := WalkBranches(order, whens, p.context, p.nextTemp);
      var e := WalkOption(order, elseClause, p.context, w.nextTemp);
      Trace(p.emitted + w.emitted + e.emitted, p.context, e.nextTemp)
    case Defined(value, _) =>
      if value.IvarRead? then Trace([], ctx, temp) else Walk(order, value, ctx, temp)
    case EmbeddedVar(variable, _) =>
      if variable.IvarRead? && variable.name !in ctx then
        var v := Walk(order, variable, ctx, temp);
        Trace([Annotation(variable.loc.start, "{")] + v.emitted + [Annotation(variable.loc.end, "}")],
              v.context, v.nextTemp)
      else
        Walk(order, variable, ctx, temp)
    case MethodCall(name, receiver, arguments, block, _) =>
      if name in EvalMethods && arguments.Some? then
        WalkEvalCall(order, n, ctx, temp)
      else
        var r := WalkOption(order, receiver, ctx, temp);
        var a := WalkOption(order, arguments, r.context, r.nextTemp);
        var b := WalkOption(order, block, a.context, a.nextTemp);
        Trace(r.emitted + a.emitted + b.emitted, b.context, b.nextTemp)
    case Arguments(items, _, _) => WalkAll(order, items, ctx, temp)
    case Other(children, _) => WalkAll(order, children, ctx, temp)
  }

  /**
    The annotations an eval call with arguments adds around its receiver
    (bound to the temporary drawn from `temp`) and its arguments (routed
    through the runtime wrapper), in the order `visit_call_node` pushes them.
   */
  function EvalWrapper(n: Node, temp: nat): (w: seq<Annotation>)
    requires n.MethodCall? && n.arguments.Some?
    ensures |w| == (if n.receiver.Some? then 4 else 2)
    ensures w[|w| - 1].offset == n.arguments.value.loc.end
    ensures w[|w| - 2].offset == n.arguments.value.loc.start
  {
    var args := n.arguments.value;
    var closing := Annotation(args.loc.end, ArgumentsClosing(ContainsForwarding(args)));
    if n.receiver.Some? then
      var recv := n.receiver.value;
      var local := TempName(temp);
      [Annotation(recv.loc.start, ReceiverOpening(local)), Annotation(recv.loc.end, ReceiverClosing),
       Annotation(args.loc.start, ArgumentsOpening(local, n.name)), closing]
    else
      [Annotation(args.loc.start, ArgumentsOpening("self", n.name)), closing]
  }

  /**
    A call to one of the eval methods with arguments: the receiver, if any,
    is bound to a fresh temporary (the counter value `temp`, drawn before
    the children are visited) and the arguments are routed through the
    runtime wrapper.
   */
  function WalkEvalCall(order: CallOrder, n: Node, ctx: set<string>, temp: nat): (t: Trace)
    requires n.MethodCall? && n.arguments.Some?
    ensures ctx <= t.context && temp <= t.nextTemp
    ensures order.WrapperFirst? ==> EvalWrapper(n, temp) <= t.emitted
    decreases n, 0
  {
    var args := n.arguments.value;
    var closing := Annotation(args.loc.end, ArgumentsClosing(ContainsForwarding(args)));
    if order.WrapperFirst? then
      var r := WalkOption(order, n.receiver, ctx, if n.receiver.Some? then temp + 1 else temp);
      var a := Walk(order, args, r.context, r.nextTemp);
      var b := WalkOption(order, n.block, a.context, a.nextTemp);
      Trace(EvalWrapper(n, temp) + r.emitted + a.emitted + b.emitted, b.context, b.nextTemp)
    else if n.receiver.Some? then
      var recv := n.receiver.value;
      var local := TempName(temp);
      var r := Walk(order, recv, ctx, temp + 1);
      var a := Walk(order, args, r.context, r.nextTemp);
      var b := WalkOption(order, n.block, a.context, a.nextTemp);
      Trace([Annotation(recv.loc.start, ReceiverOpening(local))] + r.emitted
            + [Annotation(recv.loc.end, ReceiverClosing), Annotation(args.loc.start, ArgumentsOpening(local, n.name))]
            + a.emitted + [closing] + b.emitted,
            b.context, b.nextTemp)
    else
      var a := Walk(order, args, ctx, temp);
      var b := WalkOption(order, n.block, a.context, a.nextTemp);
      Trace([Annotation(args.loc.start, ArgumentsOpening("self", n.name))] + a.emitted + [closing] + b.emitted,
            b.context, b.nextTemp)
  }

  /** `visit(node)` where `node` may be `nil`. */
  function WalkOption(order: CallOrder, o: Option<Node>, ctx: set<string>, temp: nat): (t: Trace)
    ensures ctx <= t.context && temp <= t.nextTemp
    decreases o
  {
    if o.None? then Trace([], ctx, temp) else Walk(order, o.value, ctx, temp)
  }

  /** Visiting siblings in order, each in the context the previous one left. */
  function WalkAll(order: CallOrder, ns: seq<Node>, ctx: set<string>, temp: nat): (t: Trace)
    ensures ctx <= t.context && temp <= t.nextTemp
    decreases ns
  {
    if ns == [] then Trace([], ctx, temp)
    else
      var front := WalkAll(order, ns[..|ns| - 1], ctx, temp);
      var last := Walk(order, ns[|ns| - 1], front.context, front.nextTemp);
      Trace(front.emitted + last.emitted, last.context, last.nextTemp)
  }

  /** `node.conditions.each { |condition| branch { visit(condition) } }`. */
  function WalkBranches(order: CallOrder, ns: seq<Node>, ctx: set<string>, temp: nat): (t: Trace)
    ensures t.context == ctx && temp <= t.nextTemp
    decreases ns
  {
    if ns == [] then Trace([], ctx, temp)
    else
      var front := WalkBranches(order, ns[..|ns| - 1], ctx, temp);
      var last := Walk(order, ns[|ns| - 1], ctx, front.nextTemp);
      Trace(front.emitted + last.emitted, ctx, last.nextTemp)
  }

  // ---------------------------------------------------------------------------
  // What the context holds after a visit

  /**
    The names a node guards for the code that follows it in the same scope:
    the reads that run whenever the node runs. Nothing under a scope-opening
    node, inside an `if` arm, a `when` clause or an `else`, or directly under
    `defined?` counts.
   */
  function Established(n: Node): set<string>
    decreases n
  {
    match n
    case IvarRead(name, _) => {name}
    case Scope(_, _, _) => {}
    case If(condition, _, _, _) => Established(condition)
    case Case(subject, _, _, _) => EstablishedOption(subject)
    case Defined(value, _) => if value.IvarRead? then {} else Established(value)
    case EmbeddedVar(variable, _) => Established(variable)
    case MethodCall(_, receiver, arguments, block, _) =>
      EstablishedOption(receiver) + EstablishedOption(arguments) + EstablishedOption(block)
    case Arguments(items, _, _) => EstablishedAll(items)
    case Other(children, _) => EstablishedAll(children)
  }

  function EstablishedOption(o: Option<Node>): set<string>
    decreases o
  {
    if o.None? then {} else Established(o.value)
  }

  function EstablishedAll(ns: seq<Node>): set<string>
    decreases ns
  {
    if ns == [] then {} else EstablishedAll(ns[..|ns| - 1]) + Established(ns[|ns| - 1])
  }

  /**
    After a visit the context is the old one plus exactly the names the node
    establishes: what a scope body, an `if` arm, a `when` clause or an
    `else` learns never leaks out, and nothing is ever forgotten.
   */
  lemma {:induction false} ContextAfterWalk(order: CallOrder, n: Node, ctx: set<string>, temp: nat)
    ensures Walk(order, n, ctx, temp).context == ctx + Established(n)
    decreases n, 1
  {
    match n
    case IvarRead(_, _) =>
    case Scope(_, _, _) =>
    case If(condition, _, _, _) =>
      ContextAfterWalk(order, condition, ctx, temp);
    case Case(subject, _, _, _) =>
      ContextAfterWalkOption(order, subject, ctx, temp);
    case Defined(value, _) =>
      if !value.IvarRead? {
        ContextAfterWalk(order, value, ctx, temp);
      }
    case EmbeddedVar(variable, _) =>
      ContextAfterWalk(order, variable, ctx, temp);
    case MethodCall(name, receiver, arguments, block, _) =>
      if name in EvalMethods && arguments.Some? {
        ContextAfterEvalCall(order, n, ctx, temp);
      } else {
        var r := WalkOption(order, receiver, ctx, temp);
        var a := WalkOption(order, arguments, r.context, r.nextTemp);
        ContextAfterWalkOption(order, receiver, ctx, temp);
        ContextAfterWalkOption(order, arguments, r.context, r.nextTemp);
        ContextAfterWalkOption(order, block, a.context, a.nextTemp);
      }
    case Arguments(items, _, _) =>
      ContextAfterWalkAll(order, items, ctx, temp);
    case Other(children, _) =>
      ContextAfterWalkAll(order, children, ctx, temp);
  }

  lemma {:induction false} ContextAfterEvalCall(order: CallOrder, n: Node, ctx: set<string>, temp: nat)
    requires n.MethodCall? && n.arguments.Some?
    ensures WalkEvalCall(order, n, ctx, temp).context == ctx + Established(n)
    decreases n, 0
  {
    var receiver, args, block := n.receiver, n.arguments.value, n.block;
    if order.WrapperFirst? {
      var t0 := if receiver.Some? then temp + 1 else temp;
      var r := WalkOption(order, receiver, ctx, t0);
      var a := Walk(order, args, r.context, r.nextTemp);
      var b := WalkOption(order, block, a.context, a.nextTemp);
      ContextAfterWalkOption(order, receiver, ctx, t0);
      ContextAfterWalk(order, args, r.context, r.nextTemp);
      ContextAfterWalkOption(order, block, a.context, a.nextTemp);
      assert WalkEvalCall(order, n, ctx, temp).context == b.context;
    } else if receiver.Some? {
      var r := Walk(order, receiver.value, ctx, temp + 1);
      var a := Walk(order, args, r.context, r.nextTemp);
      ContextAfterWalk(order, receiver.value, ctx, temp + 1);
      ContextAfterWalk(order, args, r.context, r.nextTemp);
      ContextAfterWalkOption(order, block, a.context, a.nextTemp);
      assert WalkEvalCall(order, n, ctx, temp).context == WalkOption(order, block, a.context, a.nextTemp).context;
    } else {
      var a := Walk(order, args, ctx, temp);
      ContextAfterWalk(order, args, ctx, temp);
      ContextAfterWalkOption(order, block, a.context, a.nextTemp);
      assert WalkEvalCall(order, n, ctx, temp).context == WalkOption(order, block, a.context, a.nextTemp).context;
    }
  }

  lemma {:induction false} ContextAfterWalkOption(order: CallOrder, o: Option<Node>, ctx: set<string>, temp: nat)
    ensures WalkOption(order, o, ctx, temp).context == ctx + EstablishedOption(o)
    decreases o
  {
    if o.Some? {
      ContextAfterWalk(order, o.value, ctx, temp);
    }
  }

  lemma {:induction false} ContextAfterWalkAll(order: CallOrder, ns: seq<Node>, ctx: set<string>, temp: nat)
    ensures WalkAll(order, ns, ctx, temp).context == ctx + EstablishedAll(ns)
    decreases ns
  {
    if ns != [] {
      var front := WalkAll(order, ns[..|ns| - 1], ctx, temp);
      ContextAfterWalkAll(order, ns[..|ns| - 1], ctx, temp);
      ContextAfterWalk(order, ns[|ns| - 1], front.context, front.nextTemp);
    }
  }

  /**
    A scope body ignores what the enclosing scope has guarded: a read of
    `@x` in the body that no earlier sibling in the body has guarded for
    it is guarded, even when `@x` is in the outer context; the guard comes
    right after the annotations of those earlier siblings.
   */
  lemma ScopeGuardsFirstReadAgain(order: CallOrder, kind: ScopeKind, before: seq<Node>, name: string, read: Loc,
                                  rest: seq<Node>, loc: Loc, ctx: set<string>, temp: nat)
    requires name !in EstablishedAll(before)
    ensures WalkAll(order, before, {}, temp).emitted + Guard(name, read)
            <= Walk(order, Scope(kind, before + [IvarRead(name, read)] + rest, loc), ctx, temp).emitted
  {
    var body := before + [IvarRead(name, read)] + rest;
    WalkAllPrefix(order, body, |before| + 1, {}, temp);
    assert body[..|before| + 1] == before + [IvarRead(name, read)];
    var prior := WalkAll(order, before, {}, temp);
    ContextAfterWalkAll(order, before, {}, temp);
    WalkAllAppend(order, before, [IvarRead(name, read)], {}, temp);
    WalkAllSingle(order, IvarRead(name, read), prior.context, prior.nextTemp);
  }

  /** The annotations of a longer list of siblings start with those of its prefix. */
  lemma {:induction false} WalkAllPrefix(order: CallOrder, ns: seq<Node>, k: nat, ctx: set<string>, temp: nat)
    requires k <= |ns|
    ensures WalkAll(order, ns[..k], ctx, temp).emitted <= WalkAll(order, ns, ctx, temp).emitted
    decreases |ns| - k
  {
    if k < |ns| {
      WalkAllPrefix(order, ns, k + 1, ctx, temp);
      assert ns[..k + 1][..k] == ns[..k];
    } else {
      assert ns[..k] == ns;
    }
  }

  /**
    Visiting a list of siblings is visiting its first part and then its
    second part from the context and counter the first part left.
   */
  lemma {:induction false} WalkAllAppend(order: CallOrder, p: seq<Node>, q: seq<Node>, ctx: set<string>, temp: nat)
    ensures var first := WalkAll(order, p, ctx, temp);
            var second := WalkAll(order, q, first.context, first.nextTemp);
            WalkAll(order, p + q, ctx, temp) == Trace(first.emitted + second.emitted, second.context, second.nextTemp)
    decreases q
  {
    if q == [] {
      assert p + q == p;
    } else {
      var k := |q| - 1;
      WalkAllAppend(order, p, q[..k], ctx, temp);
      assert (p + q)[..|p + q| - 1] == p + q[..k];
      assert (p + q)[|p + q| - 1] == q[k];
    }
  }

  /** A one-node list is visited as that node. */
  lemma WalkAllSingle(order: CallOrder, n: Node, ctx: set<string>, temp: nat)
    ensures WalkAll(order, [n], ctx, temp) == Walk(order, n, ctx, temp)
  {
    assert [n][..0] == [];
  }

  /**
    An `if` leaves the context its condition left: the arms are visited in
    branch copies, so a name first guarded in an arm is guarded again after
    the conditional, while one guarded in the condition stays guarded.
   */
  lemma IfKeepsOnlyConditionContext(order: CallOrder, condition: Node, statements: Option<Node>, subsequent: Option<Node>,
                                    loc: Loc, ctx: set<string>, temp: nat)
    ensures Walk(order, If(condition, statements, subsequent, loc), ctx, temp).context
            == Walk(order, condition, ctx, temp).context
            == ctx + Established(condition)
  {
    ContextAfterWalk(order, condition, ctx, temp);
  }

  // ---------------------------------------------------------------------------
  // The two eval-call orders

  /** No call to an eval method with arguments anywhere in the tree. */
  predicate EvalFree(n: Node)
    decreases n
  {
    match n
    case IvarRead(_, _) => true
    case Scope(_, children, _) => forall i | 0 <= i < |children| :: EvalFree(children[i])
    case If(condition, statements, subsequent, _) =>
      EvalFree(condition)
      && (statements.Some? ==> EvalFree(statements.value))
      && (subsequent.Some? ==> EvalFree(subsequent.value))
    case Case(subject, whens, elseClause, _) =>
      (subject.Some? ==> EvalFree(subject.value))
      && (forall i | 0 <= i < |whens| :: EvalFree(whens[i]))
      && (elseClause.Some? ==> EvalFree(elseClause.value))
    case Defined(value, _) => EvalFree(value)
    case EmbeddedVar(variable, _) => EvalFree(variable)
    case MethodCall(name, receiver, arguments, block, _) =>
      !(name in EvalMethods && arguments.Some?)
      && (receiver.Some? ==> EvalFree(receiver.value))
      && (arguments.Some? ==> EvalFree(arguments.value))
      && (block.Some? ==> EvalFree(block.value))
    case Arguments(items, _, _) => forall i | 0 <= i < |items| :: EvalFree(items[i])
    case Other(children, _) => forall i | 0 <= i < |children| :: EvalFree(children[i])
  }

  /** Two visits that leave the same context and counter and push the same annotations, in any order. */
  predicate SameVisit(p: Trace, q: Trace) {
    p.context == q.context && p.nextTemp == q.nextTemp && multiset(p.emitted) == multiset(q.emitted)
  }

  /**
    The two eval-call orders push the same annotations, at most in a
    different order, and leave the same context and counter; on a tree
    without an eval call they push the very same list.
   */
  lemma {:induction false} OrdersAgree(n: Node, ctx: set<string>, temp: nat)
    ensures SameVisit(Walk(WrapperFirst, n, ctx, temp), Walk(WrapAround, n, ctx, temp))
    ensures EvalFree(n) ==> Walk(WrapperFirst, n, ctx, temp) == Walk(WrapAround, n, ctx, temp)
    decreases n, 1
  {
    match n
    case IvarRead(_, _) =>
    case Scope(_, children, _) =>
      OrdersAgreeAll(children, {}, temp);
    case If(condition, statements, subsequent, _) =>
      var c := Walk(WrapAround, condition, ctx, temp);
      var s := WalkOption(WrapAround, statements, c.context, c.nextTemp);
      OrdersAgree(condition, ctx, temp);
      OrdersAgreeOption(statements, c.context, c.nextTemp);
      OrdersAgreeOption(subsequent, c.context, s.nextTemp);
    case Case(subject, whens, elseClause, _) =>
      var p := WalkOption(WrapAround, subject, ctx, temp);
      var w := WalkBranches(WrapAround, whens, p.context, p.nextTemp);
      OrdersAgreeOption(subject, ctx, temp);
      OrdersAgreeBranches(whens, p.context, p.nextTemp);
      OrdersAgreeOption(elseClause, p.context, w.nextTemp);
    case Defined(value, _) =>
      if !value.IvarRead? {
        OrdersAgree(value, ctx, temp);
      }
    case EmbeddedVar(variable, _) =>
      OrdersAgree(variable, ctx, temp);
    case MethodCall(name, receiver, arguments, block, _) =>
      if name in EvalMethods && arguments.Some? {
        EvalCallOrdersAgree(n, ctx, temp);
      } else {
        var r := WalkOption(WrapAround, receiver, ctx, temp);
        var a := WalkOption(WrapAround, arguments, r.context, r.nextTemp);
        OrdersAgreeOption(receiver, ctx, temp);
        OrdersAgreeOption(arguments, r.context, r.nextTemp);
        OrdersAgreeOption(block, a.context, a.nextTemp);
      }
    case Arguments(items, _, _) =>
      OrdersAgreeAll(items, ctx, temp);
    case Other(children, _) =>
      OrdersAgreeAll(children, ctx, temp);
  }

  /** At an eval call the wrapper's pieces move, the children's annotations do not change. */
  lemma {:induction false} EvalCallOrdersAgree(n: Node, ctx: set<string>, temp: nat)
    requires n.MethodCall? && n.arguments.Some?
    ensures SameVisit(WalkEvalCall(WrapperFirst, n, ctx, temp), WalkEvalCall(WrapAround, n, ctx, temp))
    decreases n, 0
  {
    var args := n.arguments.value;
    var w := EvalWrapper(n, temp);
    var first := WalkEvalCall(WrapperFirst, n, ctx, temp);
    var around := WalkEvalCall(WrapAround, n, ctx, temp);
    if n.receiver.Some? {
      var recv := n.receiver.value;
      var r1 := Walk(WrapperFirst, recv, ctx, temp + 1);
      assert WalkOption(WrapperFirst, n.receiver, ctx, temp + 1) == r1;
      var a1 := Walk(WrapperFirst, args, r1.context, r1.nextTemp);
      var b1 := WalkOption(WrapperFirst, n.block, a1.context, a1.nextTemp);
      var r := Walk(WrapAround, recv, ctx, temp + 1);
      var a := Walk(WrapAround, args, r.context, r.nextTemp);
      var b := WalkOption(WrapAround, n.block, a.context, a.nextTemp);
      OrdersAgree(recv, ctx, temp + 1);
      OrdersAgree(args, r.context, r.nextTemp);
      OrdersAgreeOption(n.block, a.context, a.nextTemp);
      assert first.emitted == w + r1.emitted + a1.emitted + b1.emitted;
      assert around.emitted == [w[0]] + r.emitted + [w[1], w[2]] + a.emitted + [w[3]] + b.emitted;
      WrapperMoves(w, r1.emitted, a1.emitted, b1.emitted, r.emitted, a.emitted, b.emitted);
    } else {
      assert WalkOption(WrapperFirst, n.receiver, ctx, temp) == Trace([], ctx, temp);
      var a1 := Walk(WrapperFirst, args, ctx, temp);
      var b1 := WalkOption(WrapperFirst, n.block, a1.context, a1.nextTemp);
      var a := Walk(WrapAround, args, ctx, temp);
      var b := WalkOption(WrapAround, n.block, a.context, a.nextTemp);
      OrdersAgree(args, ctx, temp);
      OrdersAgreeOption(n.block, a.context, a.nextTemp);
      assert first.emitted == w + [] + a1.emitted + b1.emitted;
      assert around.emitted == [w[0]] + a.emitted + [w[1]] + b.emitted;
      SelfWrapperMoves(w, a1.emitted, b1.emitted, a.emitted, b.emitted);
    }
  }

  /** The four wrapper pieces in front of the parts, or around them: the same annotations. */
  lemma WrapperMoves<T>(w: seq<T>, r1: seq<T>, a1: seq<T>, b1: seq<T>, r: seq<T>, a: seq<T>, b: seq<T>)
    requires |w| == 4
    requires multiset(r1) == multiset(r) && multiset(a1) == multiset(a) && multiset(b1) == multiset(b)
    ensures multiset(w + r1 + a1 + b1) == multiset([w[0]] + r + [w[1], w[2]] + a + [w[3]] + b)
  {
    assert w == [w[0]] + [w[1], w[2]] + [w[3]];
  }

  /** The two wrapper pieces of a receiverless call, in front of the parts or around them. */
  lemma SelfWrapperMoves<T>(w: seq<T>, a1: seq<T>, b1: seq<T>, a: seq<T>, b: seq<T>)
    requires |w| == 2
    requires multiset(a1) == multiset(a) && multiset(b1) == multiset(b)
    ensures multiset(w + [] + a1 + b1) == multiset([w[0]] + a + [w[1]] + b)
  {
    assert w == [w[0]] + [w[1]];
  }

  lemma {:induction false} OrdersAgreeOption(o: Option<Node>, ctx: set<string>, temp: nat)
    ensures SameVisit(WalkOption(WrapperFirst, o, ctx, temp), WalkOption(WrapAround, o, ctx, temp))
    ensures o.Some? && EvalFree(o.value) ==> WalkOption(WrapperFirst, o, ctx, temp) == WalkOption(WrapAround, o, ctx, temp)
    decreases o
  {
    if o.Some? {
      OrdersAgree(o.value, ctx, temp);
    }
  }

  lemma {:induction false} OrdersAgreeAll(ns: seq<Node>, ctx: set<string>, temp: nat)
    ensures SameVisit(WalkAll(WrapperFirst, ns, ctx, temp), WalkAll(WrapAround, ns, ctx, temp))
    ensures (forall i | 0 <= i < |ns| :: EvalFree(ns[i])) ==> WalkAll(WrapperFirst, ns, ctx, temp) == WalkAll(WrapAround, ns, ctx, temp)
    decreases ns
  {
    if ns != [] {
      var front := WalkAll(WrapAround, ns[..|ns| - 1], ctx, temp);
      OrdersAgreeAll(ns[..|ns| - 1], ctx, temp);
      OrdersAgree(ns[|ns| - 1], front.context, front.nextTemp);
    }
  }

  lemma {:induction false} OrdersAgreeBranches(ns: seq<Node>, ctx: set<string>, temp: nat)
    ensures SameVisit(WalkBranches(WrapperFirst, ns, ctx, temp), WalkBranches(WrapAround, ns, ctx, temp))
    ensures (forall i | 0 <= i < |ns| :: EvalFree(ns[i])) ==> WalkBranches(WrapperFirst, ns, ctx, temp) == WalkBranches(WrapAround, ns, ctx, temp)
    decreases ns
  {
    if ns != [] {
      var front := WalkBranches(WrapAround, ns[..|ns| - 1], ctx, temp);
      OrdersAgreeBranches(ns[..|ns| - 1], ctx, temp);
      OrdersAgree(ns[|ns| - 1], ctx, front.nextTemp);
    }
  }

  // ---------------------------------------------------------------------------
  // Code with nothing to guard or wrap

  /** No instance-variable read outside `defined?` and no eval call with arguments. */
  predicate Untouched(n: Node)
    decreases n
  {
    match n
    case IvarRead(_, _) => false
    case Scope(_, children, _) => forall i | 0 <= i < |children| :: Untouched(children[i])
    case If(condition, statements, subsequent, _) =>
      Untouched(condition)
      && (statements.Some? ==> Untouched(statements.value))
      && (subsequent.Some? ==> Untouched(subsequent.value))
    case Case(subject, whens, elseClause, _) =>
      (subject.Some? ==> Untouched(subject.value))
      && (forall i | 0 <= i < |whens| :: Untouched(whens[i]))
      && (elseClause.Some? ==> Untouched(elseClause.value))
    case Defined(value, _) => value.IvarRead? || Untouched(value)
    case EmbeddedVar(variable, _) => Untouched(variable)
    case MethodCall(name, receiver, arguments, block, _) =>
      !(name in EvalMethods && arguments.Some?)
      && (receiver.Some? ==> Untouched(receiver.value))
      && (arguments.Some? ==> Untouched(arguments.value))
      && (block.Some? ==> Untouched(block.value))
    case Arguments(items, _, _) => forall i | 0 <= i < |items| :: Untouched(items[i])
    case Other(children, _) => forall i | 0 <= i < |children| :: Untouched(children[i])
  }

  /** Code with nothing to guard or wrap gets no annotations, in any context. */
  lemma {:induction false} UntouchedEmitsNothing(order: CallOrder, n: Node, ctx: set<string>, temp: nat)
    requires Untouched(n)
    ensures Walk(order, n, ctx, temp).emitted == []
    decreases n
  {
    match n
    case IvarRead(_, _) =>
    case Scope(_, children, _) =>
      UntouchedAllEmitsNothing(order, children, {}, temp);
    case If(condition, statements, subsequent, _) =>
      var c := Walk(order, condition, ctx, temp);
      var s := WalkOption(order, statements, c.context, c.nextTemp);
      UntouchedEmitsNothing(order, condition, ctx, temp);
      UntouchedOptionEmitsNothing(order, statements, c.context, c.nextTemp);
      UntouchedOptionEmitsNothing(order, subsequent, c.context, s.nextTemp);
    case Case(subject, whens, elseClause, _) =>
      var p := WalkOption(order, subject, ctx, temp);
      var w := WalkBranches(order, whens, p.context, p.nextTemp);
      UntouchedOptionEmitsNothing(order, subject, ctx, temp);
      UntouchedBranchesEmitNothing(order, whens, p.context, p.nextTemp);
      UntouchedOptionEmitsNothing(order, elseClause, p.context, w.nextTemp);
    case Defined(value, _) =>
      if !value.IvarRead? {
        UntouchedEmitsNothing(order, value, ctx, temp);
      }
    case EmbeddedVar(variable, _) =>
      UntouchedEmitsNothing(order, variable, ctx, temp);
    case MethodCall(_, receiver, arguments, block, _) =>
      var r := WalkOption(order, receiver, ctx, temp);
      var a := WalkOption(order, arguments, r.context, r.nextTemp);
      UntouchedOptionEmitsNothing(order, receiver, ctx, temp);
      UntouchedOptionEmitsNothing(order, arguments, r.context, r.nextTemp);
      UntouchedOptionEmitsNothing(order, block, a.context, a.nextTemp);
    case Arguments(items, _, _) =>
      UntouchedAllEmitsNothing(order, items, ctx, temp);
    case Other(children, _) =>
      UntouchedAllEmitsNothing(order, children, ctx, temp);
  }

  lemma {:induction false} UntouchedOptionEmitsNothing(order: CallOrder, o: Option<Node>, ctx: set<string>, temp: nat)
    requires o.Some? ==> Untouched(o.value)
    ensures WalkOption(order, o, ctx, temp).emitted == []
    decreases o
  {
    if o.Some? {
      UntouchedEmitsNothing(order, o.value, ctx, temp);
    }
  }

  lemma {:induction false} UntouchedAllEmitsNothing(order: CallOrder, ns: seq<Node>, ctx: set<string>, temp: nat)
    requires forall i | 0 <= i < |ns| :: Untouched(ns[i])
    ensures WalkAll(order, ns, ctx, temp).emitted == []
    decreases ns
  {
    if ns != [] {
      var front := WalkAll(order, ns[..|ns| - 1], ctx, temp);
      UntouchedAllEmitsNothing(order, ns[..|ns| - 1], ctx, temp);
      UntouchedEmitsNothing(order, ns[|ns| - 1], front.context, front.nextTemp);
    }
  }

  lemma {:induction false} UntouchedBranchesEmitNothing(order: CallOrder, ns: seq<Node>, ctx: set<string>, temp: nat)
    requires forall i | 0 <= i < |ns| :: Untouched(ns[i])
    ensures WalkBranches(order, ns, ctx, temp).emitted == []
    decreases ns
  {
    if ns != [] {
      var front := WalkBranches(order, ns[..|ns| - 1], ctx, temp);
      UntouchedBranchesEmitNothing(order, ns[..|ns| - 1], ctx, temp);
      UntouchedEmitsNothing(order, ns[|ns| - 1], ctx, front.nextTemp);
    }
  }
}
