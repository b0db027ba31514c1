/**
  The order and the positions of the annotations a visit pushes.
  `StrictIvars::BaseProcessor.call` sorts the annotations by offset before
  inserting them, and entries for the same offset must keep the order in
  which they were pushed: an inner guard has to close before the wrapper
  around it does. For nested spans every annotation lies inside the span
  of the node that pushed it, in either eval-call order. For spans as a
  parser reports them, a visit that pushes each eval wrapper piece around
  the part it encloses pushes its annotations already in offset order, so
  the sort reorders nothing; the processor's own order, which pushes the
  whole wrapper before visiting the call's children, does the same on
  trees without an eval call, and `eval(@c)` shows the input on which it
  breaks.
 */
module Emission {
  import opened Wrappers
  import opened Syntax
  import opened Patch
  import opened Guards

  /** Every annotation lands in `[lo, hi]`. */
  predicate Within(anns: seq<Annotation>, lo: int, hi: int) {
    forall i | 0 <= i < |anns| :: lo <= anns[i].offset <= hi
  }

  /** Sorted by offset, and every offset in `[lo, hi]`. */
  predicate Ordered(anns: seq<Annotation>, lo: int, hi: int) {
    Sorted(anns) && Within(anns, lo, hi)
  }

  lemma Join(p: seq<Annotation>, q: seq<Annotation>, lo: int, m: int, hi: int)
    requires Ordered(p, lo, m) && Ordered(q, m, hi) && lo <= m <= hi
    ensures Ordered(p + q, lo, hi)
  {
    var r := p + q;
    forall i, j | 0 <= i < j < |r| ensures r[i].offset <= r[j].offset {
      if j < |p| {
        assert r[i] == p[i] && r[j] == p[j];
      } else if i < |p| {
        assert r[i] == p[i] && r[j] == q[j - |p|];
      } else {
        assert r[i] == q[i - |p|] && r[j] == q[j - |p|];
      }
    }
    forall i | 0 <= i < |r| ensures lo <= r[i].offset <= hi {
      if i < |p| {
        assert r[i] == p[i];
      } else {
        assert r[i] == q[i - |p|];
      }
    }
  }

  lemma WithinJoin(p: seq<Annotation>, q: seq<Annotation>, lo: int, hi: int)
    requires Within(p, lo, hi) && Within(q, lo, hi)
    ensures Within(p + q, lo, hi)
  {
    var r := p + q;
    forall i | 0 <= i < |r| ensures lo <= r[i].offset <= hi {
      if i < |p| {
        assert r[i] == p[i];
      } else {
        assert r[i] == q[i - |p|];
      }
    }
  }

  /**
    For nested spans every annotation of a visit lands inside the visited
    node's span (here widened to any `[lo, hi]` around it), whatever the
    order of siblings.
   */
  lemma {:induction false} WalkWithin(n: Node, ctx: set<string>, temp: nat, lo: int, hi: int)
    requires Nested(n) && lo <= n.loc.start && n.loc.end <= hi
    ensures Within(Walk(WrapAround, n, ctx, temp).emitted, lo, hi)
    decreases n, 2
  {
    match n
    case IvarRead(name, loc) =>
      if name !in ctx {
        WithinTwo(Guard(name, loc)[0], Guard(name, loc)[1], lo, hi);
      }
    case Scope(_, _, _) =>
      ListWithin(n, ctx, temp, lo, hi);
    case If(_, _, _, _) =>
      IfWithin(n, ctx, temp, lo, hi);
    case Case(_, _, _, _) =>
      CaseWithin(n, ctx, temp, lo, hi);
    case Defined(_, _) =>
      LeafWithin(n, ctx, temp, lo, hi);
    case EmbeddedVar(_, _) =>
      LeafWithin(n, ctx, temp, lo, hi);
    case MethodCall(_, _, _, _, _) =>
      CallWithin(n, ctx, temp, lo, hi);
    case Arguments(_, _, _) =>
      ListWithin(n, ctx, temp, lo, hi);
    case Other(_, _) =>
      ListWithin(n, ctx, temp, lo, hi);
  }

  /** `defined?(...)` and `#@var` interpolation. */
  lemma {:induction false} LeafWithin(n: Node, ctx: set<string>, temp: nat, lo: int, hi: int)
    requires (n.Defined? || n.EmbeddedVar?) && Nested(n) && lo <= n.loc.start && n.loc.end <= hi
    ensures Within(Walk(WrapAround, n, ctx, temp).emitted, lo, hi)
    decreases n, 1
  {
    if n.Defined? {
      assert n.value in Children(n);
      if !n.value.IvarRead? {
        WalkWithin(n.value, ctx, temp, lo, hi);
      }
    } else {
      var variable := n.variable;
      assert variable in Children(n);
      NestedSpan(variable);
      WalkWithin(variable, ctx, temp, lo, hi);
      if variable.IvarRead? && variable.name !in ctx {
        var v := Walk(WrapAround, variable, ctx, temp);
        WithinOne(Annotation(variable.loc.start, "{"), lo, hi);
        WithinOne(Annotation(variable.loc.end, "}"), lo, hi);
        WithinChain(Walk(WrapAround, n, ctx, temp).emitted, [Annotation(variable.loc.start, "{")], v.emitted,
                    [Annotation(variable.loc.end, "}")], [], [], [], lo, hi);
      }
    }
  }

  lemma {:induction false} OptionWithin(o: Option<Node>, ctx: set<string>, temp: nat, lo: int, hi: int)
    requires o.Some? ==> Nested(o.value) && lo <= o.value.loc.start && o.value.loc.end <= hi
    ensures Within(WalkOption(WrapAround, o, ctx, temp).emitted, lo, hi)
    decreases o
  {
    if o.Some? {
      WalkWithin(o.value, ctx, temp, lo, hi);
    }
  }

  lemma {:induction false} AllWithin(ns: seq<Node>, ctx: set<string>, temp: nat, lo: int, hi: int)
    requires forall k | 0 <= k < |ns| :: Nested(ns[k]) && lo <= ns[k].loc.start && ns[k].loc.end <= hi
    ensures Within(WalkAll(WrapAround, ns, ctx, temp).emitted, lo, hi)
    decreases ns
  {
    if ns != [] {
      var k := |ns| - 1;
      var front := WalkAll(WrapAround, ns[..k], ctx, temp);
      AllWithin(ns[..k], ctx, temp, lo, hi);
      WalkWithin(ns[k], front.context, front.nextTemp, lo, hi);
      WithinJoin(front.emitted, Walk(WrapAround, ns[k], front.context, front.nextTemp).emitted, lo, hi);
    }
  }

  lemma {:induction false} BranchesWithin(ns: seq<Node>, ctx: set<string>, temp: nat, lo: int, hi: int)
    requires forall k | 0 <= k < |ns| :: Nested(ns[k]) && lo <= ns[k].loc.start && ns[k].loc.end <= hi
    ensures Within(WalkBranches(WrapAround, ns, ctx, temp).emitted, lo, hi)
    decreases ns
  {
    if ns != [] {
      var k := |ns| - 1;
      var front := WalkBranches(WrapAround, ns[..k], ctx, temp);
      BranchesWithin(ns[..k], ctx, temp, lo, hi);
      WalkWithin(ns[k], ctx, front.nextTemp, lo, hi);
      WithinJoin(front.emitted, Walk(WrapAround, ns[k], ctx, front.nextTemp).emitted, lo, hi);
    }
  }

  lemma {:induction false} ListWithin(n: Node, ctx: set<string>, temp: nat, lo: int, hi: int)
    requires n.Scope? || n.Arguments? || n.Other?
    requires Nested(n) && lo <= n.loc.start && n.loc.end <= hi
    ensures Within(Walk(WrapAround, n, ctx, temp).emitted, lo, hi)
    decreases n, 1
  {
    var children := Children(n);
    assert forall k | 0 <= k < |children| :: children[k] in children;
    AllWithin(children, if n.Scope? then {} else ctx, temp, lo, hi);
  }

  lemma {:induction false} IfWithin(n: Node, ctx: set<string>, temp: nat, lo: int, hi: int)
    requires n.If? && Nested(n) && lo <= n.loc.start && n.loc.end <= hi
    ensures Within(Walk(WrapAround, n, ctx, temp).emitted, lo, hi)
    decreases n, 1
  {
    var condition, statements, subsequent := n.condition, n.statements, n.subsequent;
    assert condition in Children(n);
    assert statements.Some? ==> statements.value in Children(n);
    assert subsequent.Some? ==> subsequent.value in Children(n);
    var c := Walk(WrapAround, condition, ctx, temp);
    var s := WalkOption(WrapAround, statements, c.context, c.nextTemp);
    var e := WalkOption(WrapAround, subsequent, c.context, s.nextTemp);
    WalkWithin(condition, ctx, temp, lo, hi);
    OptionWithin(statements, c.context, c.nextTemp, lo, hi);
    OptionWithin(subsequent, c.context, s.nextTemp, lo, hi);
    WithinJoin(c.emitted, s.emitted, lo, hi);
    WithinJoin(c.emitted + s.emitted, e.emitted, lo, hi);
  }

  lemma {:induction false} CaseWithin(n: Node, ctx: set<string>, temp: nat, lo: int, hi: int)
    requires n.Case? && Nested(n) && lo <= n.loc.start && n.loc.end <= hi
    ensures Within(Walk(WrapAround, n, ctx, temp).emitted, lo, hi)
    decreases n, 1
  {
    var subject, whens, elseClause := n.subject, n.whens, n.elseClause;
    assert subject.Some? ==> subject.value in Children(n);
    assert elseClause.Some? ==> elseClause.value in Children(n);
    assert forall k | 0 <= k < |whens| :: whens[k] in Children(n);
    var p := WalkOption(WrapAround, subject, ctx, temp);
    var w := WalkBranches(WrapAround, whens, p.context, p.nextTemp);
    var e := WalkOption(WrapAround, elseClause, p.context, w.nextTemp);
    OptionWithin(subject, ctx, temp, lo, hi);
    BranchesWithin(whens, p.context, p.nextTemp, lo, hi);
    OptionWithin(elseClause, p.context, w.nextTemp, lo, hi);
    WithinJoin(p.emitted, w.emitted, lo, hi);
    WithinJoin(p.emitted + w.emitted, e.emitted, lo, hi);
  }

  lemma {:induction false} CallWithin(n: Node, ctx: set<string>, temp: nat, lo: int, hi: int)
    requires n.MethodCall? && Nested(n) && lo <= n.loc.start && n.loc.end <= hi
    ensures Within(Walk(WrapAround, n, ctx, temp).emitted, lo, hi)
    decreases n, 1
  {
    var receiver, arguments, block := n.receiver, n.arguments, n.block;
    assert receiver.Some? ==> receiver.value in Children(n);
    assert arguments.Some? ==> arguments.value in Children(n);
    assert block.Some? ==> block.value in Children(n);
    if n.name in EvalMethods && arguments.Some? {
      if receiver.Some? {
        EvalCallWithin(n, ctx, temp, lo, hi);
      } else {
        SelfEvalCallWithin(n, ctx, temp, lo, hi);
      }
    } else {
      var r := WalkOption(WrapAround, receiver, ctx, temp);
      var a := WalkOption(WrapAround, arguments, r.context, r.nextTemp);
      var b := WalkOption(WrapAround, block, a.context, a.nextTemp);
      OptionWithin(receiver, ctx, temp, lo, hi);
      OptionWithin(arguments, r.context, r.nextTemp, lo, hi);
      OptionWithin(block, a.context, a.nextTemp, lo, hi);
      WithinJoin(r.emitted, a.emitted, lo, hi);
      WithinJoin(r.emitted + a.emitted, b.emitted, lo, hi);
    }
  }

  lemma {:induction false} EvalCallWithin(n: Node, ctx: set<string>, temp: nat, lo: int, hi: int)
    requires n.MethodCall? && n.receiver.Some? && n.arguments.Some?
    requires Nested(n.receiver.value) && lo <= n.receiver.value.loc.start && n.receiver.value.loc.end <= hi
    requires Nested(n.arguments.value) && lo <= n.arguments.value.loc.start && n.arguments.value.loc.end <= hi
    requires n.block.Some? ==> Nested(n.block.value) && lo <= n.block.value.loc.start && n.block.value.loc.end <= hi
    ensures Within(WalkEvalCall(WrapAround, n, ctx, temp).emitted, lo, hi)
    decreases n, 0
  {
    var recv, args, block := n.receiver.value, n.arguments.value, n.block;
    NestedSpan(recv);
    NestedSpan(args);
    var closing := Annotation(args.loc.end, ArgumentsClosing(ContainsForwarding(args)));
    var local := TempName(temp);
    var r := Walk(WrapAround, recv, ctx, temp + 1);
    var a := Walk(WrapAround, args, r.context, r.nextTemp);
    var b := WalkOption(WrapAround, block, a.context, a.nextTemp);
    WalkWithin(recv, ctx, temp + 1, lo, hi);
    WalkWithin(args, r.context, r.nextTemp, lo, hi);
    OptionWithin(block, a.context, a.nextTemp, lo, hi);
    var opening := [Annotation(recv.loc.start, ReceiverOpening(local))];
    var middle := [Annotation(recv.loc.end, ReceiverClosing), Annotation(args.loc.start, ArgumentsOpening(local, n.name))];
    WithinOne(opening[0], lo, hi);
    WithinTwo(middle[0], middle[1], lo, hi);
    WithinOne(closing, lo, hi);
    WithinChain(WalkEvalCall(WrapAround, n, ctx, temp).emitted, opening, r.emitted, middle, a.emitted, [closing], b.emitted, lo, hi);
  }

  lemma {:induction false} SelfEvalCallWithin(n: Node, ctx: set<string>, temp: nat, lo: int, hi: int)
    requires n.MethodCall? && n.receiver.None? && n.arguments.Some?
    requires Nested(n.arguments.value) && lo <= n.arguments.value.loc.start && n.arguments.value.loc.end <= hi
    requires n.block.Some? ==> Nested(n.block.value) && lo <= n.block.value.loc.start && n.block.value.loc.end <= hi
    ensures Within(WalkEvalCall(WrapAround, n, ctx, temp).emitted, lo, hi)
    decreases n, 0
  {
    var args, block := n.arguments.value, n.block;
    NestedSpan(args);
    var closing := Annotation(args.loc.end, ArgumentsClosing(ContainsForwarding(args)));
    var a := Walk(WrapAround, args, ctx, temp);
    var b := WalkOption(WrapAround, block, a.context, a.nextTemp);
    WalkWithin(args, ctx, temp, lo, hi);
    OptionWithin(block, a.context, a.nextTemp, lo, hi);
    var opening := [Annotation(args.loc.start, ArgumentsOpening("self", n.name))];
    WithinOne(opening[0], lo, hi);
    WithinOne(closing, lo, hi);
    WithinChain(WalkEvalCall(WrapAround, n, ctx, temp).emitted, opening, a.emitted, [closing], b.emitted, [], [], lo, hi);
  }

  lemma WithinOne(x: Annotation, lo: int, hi: int)
    requires lo <= x.offset <= hi
    ensures Within([x], lo, hi)
  {
  }

  lemma WithinTwo(x: Annotation, y: Annotation, lo: int, hi: int)
    requires lo <= x.offset <= hi && lo <= y.offset <= hi
    ensures Within([x, y], lo, hi)
  {
  }

  lemma NestedSpan(n: Node)
    requires Nested(n)
    ensures n.loc.start <= n.loc.end
  {
  }

  lemma WithinChain(whole: seq<Annotation>, p: seq<Annotation>, q: seq<Annotation>, r: seq<Annotation>, s: seq<Annotation>,
                    t: seq<Annotation>, u: seq<Annotation>, lo: int, hi: int)
    requires Within(p, lo, hi) && Within(q, lo, hi) && Within(r, lo, hi)
    requires Within(s, lo, hi) && Within(t, lo, hi) && Within(u, lo, hi)
    requires whole == p + q + r + s + t + u
    ensures Within(whole, lo, hi)
  {
    WithinJoin(p, q, lo, hi);
    WithinJoin(p + q, r, lo, hi);
    WithinJoin(p + q + r, s, lo, hi);
    WithinJoin(p + q + r + s, t, lo, hi);
    WithinJoin(p + q + r + s + t, u, lo, hi);
  }

  /**
    For nested spans every annotation of a visit lands inside the visited
    node's span, so none of them makes the insertion raise when the node
    lies inside the source. This holds in either eval-call order: the two
    push the same annotations.
   */
  lemma WalkStaysInside(order: CallOrder, n: Node, ctx: set<string>, temp: nat)
    requires Nested(n)
    ensures forall a | a in Walk(order, n, ctx, temp).emitted :: n.loc.start <= a.offset <= n.loc.end
  {
    var around := Walk(WrapAround, n, ctx, temp).emitted;
    WalkWithin(n, ctx, temp, n.loc.start, n.loc.end);
    OrdersAgree(n, ctx, temp);
    forall a | a in Walk(order, n, ctx, temp).emitted ensures n.loc.start <= a.offset <= n.loc.end {
      assert a in multiset(around);
      var i :| 0 <= i < |around| && around[i] == a;
    }
  }

  /**
    For well-formed spans the sort by offset in `call` leaves the visit's
    annotations exactly as they were pushed: always when each wrapper
    piece is pushed around the part it encloses, and in the processor's
    own order when the tree has no eval call.
   */
  lemma SortKeepsWalkOrder(order: CallOrder, n: Node, ctx: set<string>, temp: nat)
    requires WellFormed(n) && (order.WrapAround? || EvalFree(n))
    ensures Sorted(Walk(order, n, ctx, temp).emitted)
    ensures SortByOffset(Walk(order, n, ctx, temp).emitted) == Walk(order, n, ctx, temp).emitted
  {
    WalkOrdered(n, ctx, temp, n.loc.start, n.loc.end);
    OrdersAgree(n, ctx, temp);
    SortOfSortedIsIdentity(Walk(order, n, ctx, temp).emitted);
  }

  /**
    For well-formed spans the visit of `n` pushes its annotations in
    non-decreasing offset order, all within the node's own span (here
    widened to any `[lo, hi]` around it).
   */
  lemma {:induction false} WalkOrdered(n: Node, ctx: set<string>, temp: nat, lo: int, hi: int)
    requires WellFormed(n) && lo <= n.loc.start && n.loc.end <= hi
    ensures Ordered(Walk(WrapAround, n, ctx, temp).emitted, lo, hi)
    decreases n, 2
  {
    match n
    case IvarRead(_, _) =>
    case Scope(_, _, _) =>
      ListOrdered(n, ctx, temp, lo, hi);
    case If(_, _, _, _) =>
      IfOrdered(n, ctx, temp, lo, hi);
    case Case(_, _, _, _) =>
      CaseOrdered(n, ctx, temp, lo, hi);
    case Defined(_, _) =>
      DefinedOrdered(n, ctx, temp, lo, hi);
    case EmbeddedVar(_, _) =>
      EmbeddedOrdered(n, ctx, temp, lo, hi);
    case MethodCall(_, _, _, _, _) =>
      CallOrdered(n, ctx, temp, lo, hi);
    case Arguments(_, _, _) =>
      ListOrdered(n, ctx, temp, lo, hi);
    case Other(_, _) =>
      ListOrdered(n, ctx, temp, lo, hi);
  }

  /** Scopes, argument lists and other nodes: the children in order. */
  lemma {:induction false} ListOrdered(n: Node, ctx: set<string>, temp: nat, lo: int, hi: int)
    requires n.Scope? || n.Arguments? || n.Other?
    requires WellFormed(n) && lo <= n.loc.start && n.loc.end <= hi
    ensures Ordered(Walk(WrapAround, n, ctx, temp).emitted, lo, hi)
    decreases n, 0
  {
    var children := Children(n);
    assert forall k | 0 <= k < |children| :: children[k] in children;
    AllOrdered(children, if n.Scope? then {} else ctx, temp, lo, hi);
  }

  lemma {:induction false} DefinedOrdered(n: Node, ctx: set<string>, temp: nat, lo: int, hi: int)
    requires n.Defined? && WellFormed(n) && lo <= n.loc.start && n.loc.end <= hi
    ensures Ordered(Walk(WrapAround, n, ctx, temp).emitted, lo, hi)
    decreases n, 0
  {
    assert Children(n) == [n.value];
    if !n.value.IvarRead? {
      WalkOrdered(n.value, ctx, temp, lo, hi);
    }
  }

  lemma {:induction false} EmbeddedOrdered(n: Node, ctx: set<string>, temp: nat, lo: int, hi: int)
    requires n.EmbeddedVar? && WellFormed(n) && lo <= n.loc.start && n.loc.end <= hi
    ensures Ordered(Walk(WrapAround, n, ctx, temp).emitted, lo, hi)
    decreases n, 0
  {
    var variable := n.variable;
    assert Children(n) == [variable];
    if !(variable.IvarRead? && variable.name !in ctx) {
      WalkOrdered(variable, ctx, temp, lo, hi);
    }
  }

  lemma {:induction false} OptionOrdered(o: Option<Node>, ctx: set<string>, temp: nat, lo: int, hi: int)
    requires o.Some? ==> WellFormed(o.value) && lo <= o.value.loc.start && o.value.loc.end <= hi
    ensures Ordered(WalkOption(WrapAround, o, ctx, temp).emitted, lo, hi)
    decreases o
  {
    if o.Some? {
      WalkOrdered(o.value, ctx, temp, lo, hi);
    }
  }

  lemma {:induction false} AllOrdered(ns: seq<Node>, ctx: set<string>, temp: nat, lo: int, hi: int)
    requires InOrder(ns) && lo <= hi
    requires forall k | 0 <= k < |ns| :: WellFormed(ns[k]) && lo <= ns[k].loc.start && ns[k].loc.end <= hi
    ensures Ordered(WalkAll(WrapAround, ns, ctx, temp).emitted, lo, hi)
    decreases ns
  {
    if ns != [] {
      var k := |ns| - 1;
      var front := WalkAll(WrapAround, ns[..k], ctx, temp);
      var m := ns[k].loc.start;
      PrefixInOrder(ns, k);
      AllOrdered(ns[..k], ctx, temp, lo, m);
      WalkOrdered(ns[k], front.context, front.nextTemp, m, hi);
      Join(front.emitted, Walk(WrapAround, ns[k], front.context, front.nextTemp).emitted, lo, m, hi);
    }
  }

  lemma {:induction false} BranchesOrdered(ns: seq<Node>, ctx: set<string>, temp: nat, lo: int, hi: int)
    requires InOrder(ns) && lo <= hi
    requires forall k | 0 <= k < |ns| :: WellFormed(ns[k]) && lo <= ns[k].loc.start && ns[k].loc.end <= hi
    ensures Ordered(WalkBranches(WrapAround, ns, ctx, temp).emitted, lo, hi)
    decreases ns
  {
    if ns != [] {
      var k := |ns| - 1;
      var front := WalkBranches(WrapAround, ns[..k], ctx, temp);
      var m := ns[k].loc.start;
      PrefixInOrder(ns, k);
      BranchesOrdered(ns[..k], ctx, temp, lo, m);
      WalkOrdered(ns[k], ctx, front.nextTemp, m, hi);
      Join(front.emitted, Walk(WrapAround, ns[k], ctx, front.nextTemp).emitted, lo, m, hi);
    }
  }

  /** All but the last of a list of siblings: in order, and ending before the last starts. */
  lemma PrefixInOrder(ns: seq<Node>, k: nat)
    requires InOrder(ns) && k < |ns|
    ensures InOrder(ns[..k])
    ensures forall j | 0 <= j < k :: ns[..k][j].loc.end <= ns[k].loc.start
  {
    forall i, j | 0 <= i < j < k ensures ns[..k][i].loc.end <= ns[..k][j].loc.start {
      assert ns[..k][i] == ns[i] && ns[..k][j] == ns[j];
    }
  }

  lemma {:induction false} IfOrdered(n: Node, ctx: set<string>, temp: nat, lo: int, hi: int)
    requires n.If? && WellFormed(n) && lo <= n.loc.start && n.loc.end <= hi
    ensures Ordered(Walk(WrapAround, n, ctx, temp).emitted, lo, hi)
    decreases n, 0
  {
    var condition, statements, subsequent := n.condition, n.statements, n.subsequent;
    assert Children(n) == OptionList(Some(condition)) + OptionList(statements) + OptionList(subsequent);
    TripleSpans(Some(condition), statements, subsequent, n.loc);
    var c := Walk(WrapAround, condition, ctx, temp);
    var s := WalkOption(WrapAround, statements, c.context, c.nextTemp);
    var e := WalkOption(WrapAround, subsequent, c.context, s.nextTemp);
    var m1 := condition.loc.end;
    var m2 := if subsequent.Some? then subsequent.value.loc.start else n.loc.end;
    WalkOrdered(condition, ctx, temp, lo, m1);
    OptionOrdered(statements, c.context, c.nextTemp, m1, m2);
    OptionOrdered(subsequent, c.context, s.nextTemp, m2, hi);
    Join(c.emitted, s.emitted, lo, m1, m2);
    Join(c.emitted + s.emitted, e.emitted, lo, m2, hi);
  }

  lemma {:induction false} CaseOrdered(n: Node, ctx: set<string>, temp: nat, lo: int, hi: int)
    requires n.Case? && WellFormed(n) && lo <= n.loc.start && n.loc.end <= hi
    ensures Ordered(Walk(WrapAround, n, ctx, temp).emitted, lo, hi)
    decreases n, 0
  {
    var subject, whens, elseClause := n.subject, n.whens, n.elseClause;
    CaseSpans(subject, whens, elseClause, n.loc);
    var p := WalkOption(WrapAround, subject, ctx, temp);
    var w := WalkBranches(WrapAround, whens, p.context, p.nextTemp);
    var e := WalkOption(WrapAround, elseClause, p.context, w.nextTemp);
    var m1 := if subject.Some? then subject.value.loc.end else n.loc.start;
    var m2 := if elseClause.Some? then elseClause.value.loc.start else n.loc.end;
    OptionOrdered(subject, ctx, temp, lo, m1);
    BranchesOrdered(whens, p.context, p.nextTemp, m1, m2);
    OptionOrdered(elseClause, p.context, w.nextTemp, m2, hi);
    Join(p.emitted, w.emitted, lo, m1, m2);
    Join(p.emitted + w.emitted, e.emitted, lo, m2, hi);
  }

  lemma {:induction false} CallOrdered(n: Node, ctx: set<string>, temp: nat, lo: int, hi: int)
    requires n.MethodCall? && WellFormed(n) && lo <= n.loc.start && n.loc.end <= hi
    ensures Ordered(Walk(WrapAround, n, ctx, temp).emitted, lo, hi)
    decreases n, 1
  {
    TripleSpans(n.receiver, n.arguments, n.block, n.loc);
    if n.name in EvalMethods && n.arguments.Some? {
      if n.receiver.Some? {
        EvalCallOrdered(n, ctx, temp, lo, hi);
      } else {
        SelfEvalCallOrdered(n, ctx, temp, lo, hi);
      }
    } else {
      var receiver, arguments, block := n.receiver, n.arguments, n.block;
      var r := WalkOption(WrapAround, receiver, ctx, temp);
      var a := WalkOption(WrapAround, arguments, r.context, r.nextTemp);
      var b := WalkOption(WrapAround, block, a.context, a.nextTemp);
      var m2 := if block.Some? then block.value.loc.start else n.loc.end;
      var m1 := if arguments.Some? then arguments.value.loc.start else m2;
      OptionOrdered(receiver, ctx, temp, lo, m1);
      OptionOrdered(arguments, r.context, r.nextTemp, m1, m2);
      OptionOrdered(block, a.context, a.nextTemp, m2, hi);
      Join(r.emitted, a.emitted, lo, m1, m2);
      Join(r.emitted + a.emitted, b.emitted, lo, m2, hi);
    }
  }

  /** `recv.eval(args) block`: receiver bound to a temporary, arguments wrapped. */
  lemma {:induction false} EvalCallOrdered(n: Node, ctx: set<string>, temp: nat, lo: int, hi: int)
    requires n.MethodCall? && n.receiver.Some? && n.arguments.Some?
    requires WellFormed(n.receiver.value) && WellFormed(n.arguments.value)
    requires lo <= n.receiver.value.loc.start && n.receiver.value.loc.end <= n.arguments.value.loc.start
    requires n.arguments.value.loc.end <= hi
    requires n.block.Some? ==> WellFormed(n.block.value) && n.arguments.value.loc.end <= n.block.value.loc.start
                               && n.block.value.loc.end <= hi
    ensures Ordered(WalkEvalCall(WrapAround, n, ctx, temp).emitted, lo, hi)
    decreases n, 0
  {
    var recv, args, block := n.receiver.value, n.arguments.value, n.block;
    var closing := Annotation(args.loc.end, ArgumentsClosing(ContainsForwarding(args)));
    var local := TempName(temp);
    var r := Walk(WrapAround, recv, ctx, temp + 1);
    var a := Walk(WrapAround, args, r.context, r.nextTemp);
    var b := WalkOption(WrapAround, block, a.context, a.nextTemp);
    WalkOrdered(recv, ctx, temp + 1, recv.loc.start, recv.loc.end);
    WalkOrdered(args, r.context, r.nextTemp, args.loc.start, args.loc.end);
    OptionOrdered(block, a.context, a.nextTemp, args.loc.end, hi);
    var opening := Annotation(recv.loc.start, ReceiverOpening(local));
    var middle := [Annotation(recv.loc.end, ReceiverClosing), Annotation(args.loc.start, ArgumentsOpening(local, n.name))];
    EvalChainOrdered(opening, r.emitted, middle, a.emitted, closing, b.emitted, lo, args.loc.end, hi);
  }

  /** `eval(args) block` with no receiver: `self` stands for it. */
  lemma {:induction false} SelfEvalCallOrdered(n: Node, ctx: set<string>, temp: nat, lo: int, hi: int)
    requires n.MethodCall? && n.receiver.None? && n.arguments.Some? && WellFormed(n.arguments.value)
    requires lo <= n.arguments.value.loc.start && n.arguments.value.loc.end <= hi
    requires n.block.Some? ==> WellFormed(n.block.value) && n.arguments.value.loc.end <= n.block.value.loc.start
                               && n.block.value.loc.end <= hi
    ensures Ordered(WalkEvalCall(WrapAround, n, ctx, temp).emitted, lo, hi)
    decreases n, 0
  {
    var args, block := n.arguments.value, n.block;
    var closing := Annotation(args.loc.end, ArgumentsClosing(ContainsForwarding(args)));
    var a := Walk(WrapAround, args, ctx, temp);
    var b := WalkOption(WrapAround, block, a.context, a.nextTemp);
    WalkOrdered(args, ctx, temp, args.loc.start, args.loc.end);
    OptionOrdered(block, a.context, a.nextTemp, args.loc.end, hi);
    var p1 := [Annotation(args.loc.start, ArgumentsOpening("self", n.name))];
    Join(p1, a.emitted, lo, args.loc.start, args.loc.end);
    Join(p1 + a.emitted, [closing], lo, args.loc.end, args.loc.end);
    Join(p1 + a.emitted + [closing], b.emitted, lo, args.loc.end, hi);
  }

  /** The shape of an eval call's annotations with a receiver, in offset terms. */
  lemma EvalChainOrdered(opening: Annotation, r: seq<Annotation>, middle: seq<Annotation>, a: seq<Annotation>,
                         closing: Annotation, b: seq<Annotation>, lo: int, m: int, hi: int)
    requires |middle| == 2 && lo <= opening.offset <= middle[0].offset <= middle[1].offset <= closing.offset == m <= hi
    requires Ordered(r, opening.offset, middle[0].offset) && Ordered(a, middle[1].offset, m) && Ordered(b, m, hi)
    ensures Ordered([opening] + r + middle + a + [closing] + b, lo, hi)
  {
    Join([opening], r, lo, opening.offset, middle[0].offset);
    Join([opening] + r, middle, lo, middle[0].offset, middle[1].offset);
    Join([opening] + r + middle, a, lo, middle[1].offset, m);
    Join([opening] + r + middle + a, [closing], lo, m, m);
    Join([opening] + r + middle + a + [closing], b, lo, m, hi);
  }

  // ---------------------------------------------------------------------------
  // The two eval-call orders on `eval(@c)`

  /** `eval(@c)`: a call whose only argument is an instance-variable read. */
  const EvalOfIvar: Node :=
    MethodCall("eval", None, Some(Arguments([IvarRead("@c", Loc(5, 7))], false, Loc(5, 7))), None, Loc(0, 8))

  lemma EvalOfIvarEmissions()
    ensures Walk(WrapperFirst, EvalOfIvar, {}, 0).emitted
            == [Annotation(5, ArgumentsOpening("self", "eval")), Annotation(7, "))"),
                Annotation(5, GuardOpening("@c")), Annotation(7, GuardClosing("@c"))]
    ensures Walk(WrapAround, EvalOfIvar, {}, 0).emitted
            == [Annotation(5, ArgumentsOpening("self", "eval")), Annotation(5, GuardOpening("@c")),
                Annotation(7, GuardClosing("@c")), Annotation(7, "))")]
  {
    var read := IvarRead("@c", Loc(5, 7));
    var args := Arguments([read], false, Loc(5, 7));
    assert [read][..0] == [];
    assert Walk(WrapAround, args, {}, 0).emitted == [Annotation(5, GuardOpening("@c")), Annotation(7, GuardClosing("@c"))];
    assert Walk(WrapperFirst, args, {}, 0).emitted == [Annotation(5, GuardOpening("@c")), Annotation(7, GuardClosing("@c"))];
  }

  /**
    Four annotations at two offsets `p < q`, pushed in the order the eval
    rule as written pushes them (the wrapper's two, then the guard's two):
    they splice like the sorted list, so at each offset the wrapper's text
    comes first.
   */
  lemma SplicedWrapperFirst(source: string, wrapOpen: Annotation, wrapClose: Annotation,
                            guardOpen: Annotation, guardClose: Annotation)
    requires wrapOpen.offset == guardOpen.offset < wrapClose.offset == guardClose.offset <= |source|
    ensures Render(Spliced(source, [wrapOpen, wrapClose, guardOpen, guardClose]))
            == source[..wrapOpen.offset] + wrapOpen.text + guardOpen.text
               + source[wrapOpen.offset..wrapClose.offset] + wrapClose.text + guardClose.text
               + source[wrapClose.offset..]
  {
    forall j ensures AtOffset([wrapOpen, wrapClose, guardOpen, guardClose], j)
                     == AtOffset([wrapOpen, guardOpen, wrapClose, guardClose], j) {
      AtOffsetCons(wrapOpen, [wrapClose, guardOpen, guardClose], j);
      AtOffsetCons(wrapClose, [guardOpen, guardClose], j);
      AtOffsetCons(guardOpen, [guardClose], j);
      AtOffsetCons(wrapOpen, [guardOpen, wrapClose, guardClose], j);
      AtOffsetCons(guardOpen, [wrapClose, guardClose], j);
      AtOffsetCons(wrapClose, [guardClose], j);
    }
    SplicedFromAlike(source, [wrapOpen, wrapClose, guardOpen, guardClose], [wrapOpen, guardOpen, wrapClose, guardClose], 0);
    SplicedTwoOffsets(source, wrapOpen, guardOpen, wrapClose, guardClose);
  }

  /** Two annotations at `p`, then two at `q > p`, already in order. */
  lemma SplicedTwoOffsets(source: string, a: Annotation, b: Annotation, c: Annotation, d: Annotation)
    requires a.offset == b.offset < c.offset == d.offset <= |source|
    ensures Render(Spliced(source, [a, b, c, d]))
            == source[..a.offset] + a.text + b.text + source[a.offset..c.offset] + c.text + d.text + source[c.offset..]
  {
    var p, q := a.offset, c.offset;
    assert [d] == [d] + [];
    assert [c, d] == [c] + [d];
    assert [b, c, d] == [b] + [c, d];
    assert [a, b, c, d] == [a] + [b, c, d];
    var r3 := Render(SplicedFrom(source, [d], q));
    var r2 := Render(SplicedFrom(source, [c, d], p));
    var r1 := Render(SplicedFrom(source, [b, c, d], p));
    var r0 := Render(SplicedFrom(source, [a, b, c, d], 0));
    SplicedFromRest(source, q);
    SplicedFromNext(source, d, [], q);
    assert r3 == [] + d.text + source[q..] by {
      assert source[q..q] == [];
    }
    SplicedFromNext(source, c, [d], p);
    assert r2 == source[p..q] + c.text + r3;
    SplicedFromNext(source, b, [c, d], p);
    assert r1 == [] + b.text + r2 by {
      assert source[p..p] == [];
    }
    SplicedFromNext(source, a, [b, c, d], 0);
    assert r0 == source[..p] + a.text + r1 by {
      assert source[0..p] == source[..p];
    }
    FiveSplices(source[..p], a.text, b.text, source[p..q], c.text, d.text, source[q..]);
  }

  /** Regrouping the pieces a splice at two offsets produces. */
  lemma FiveSplices(s0: string, t1: string, t2: string, s1: string, t3: string, t4: string, s2: string)
    ensures s0 + t1 + ([] + t2 + (s1 + t3 + ([] + t4 + s2))) == s0 + t1 + t2 + s1 + t3 + t4 + s2
  {
  }

  /** The spans of `eval(@c)` are as a parser reports them. */
  lemma EvalOfIvarWellFormed()
    ensures WellFormed(EvalOfIvar)
  {
    var read := IvarRead("@c", Loc(5, 7));
    var args := Arguments([read], false, Loc(5, 7));
    assert Children(read) == [];
    assert Children(args) == [read];
    assert Children(EvalOfIvar) == [args];
  }

  /**
    On `eval(@c)` the processor's order pushes the wrapper's `))` at offset 7
    before the guard's closing text at the same offset, so the guard closes
    outside the wrapper and the output is not valid Ruby: the
    `defined?(@c) ? @c` conditional is closed before its `:` branch.
   */
  lemma EvalOfIvarAsWrittenIsMalformed()
    ensures !Sorted(Walk(WrapperFirst, EvalOfIvar, {}, 0).emitted)
    ensures Render(Spliced("eval(@c)", Walk(WrapperFirst, EvalOfIvar, {}, 0).emitted))
            == "eval(" + ArgumentsOpening("self", "eval") + GuardOpening("@c") + "@c"
               + "))" + GuardClosing("@c") + ")"
  {
    var src := "eval(@c)";
    EvalOfIvarEmissions();
    var asWritten := Walk(WrapperFirst, EvalOfIvar, {}, 0).emitted;
    assert asWritten[1].offset > asWritten[2].offset;
    assert src[..5] == "eval(" && src[5..7] == "@c" && src[7..] == ")";
    SplicedWrapperFirst(src, asWritten[0], asWritten[1], asWritten[2], asWritten[3]);
  }

  /** Pushing the wrapper around the arguments closes the guard inside the wrapper. */
  lemma EvalOfIvarCorrected()
    ensures Sorted(Walk(WrapAround, EvalOfIvar, {}, 0).emitted)
    ensures Render(Spliced("eval(@c)", Walk(WrapAround, EvalOfIvar, {}, 0).emitted))
            == "eval(" + ArgumentsOpening("self", "eval") + GuardOpening("@c") + "@c"
               + GuardClosing("@c") + "))" + ")"
  {
    var src := "eval(@c)";
    EvalOfIvarEmissions();
    var corrected := Walk(WrapAround, EvalOfIvar, {}, 0).emitted;
    assert src[..5] == "eval(" && src[5..7] == "@c" && src[7..] == ")";
    SplicedTwoOffsets(src, corrected[0], corrected[1], corrected[2], corrected[3]);
  }
}
