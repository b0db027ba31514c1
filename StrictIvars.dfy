/**
  The rewriter itself: `StrictIvars::Processor`, a visitor whose fields are
  updated in place while it walks a parsed program, and
  `StrictIvars::BaseProcessor.call`, which runs it and splices the
  collected annotations into the source. Every visit method is proved to
  do exactly what `Guards.Walk` describes in the `WrapperFirst` order, so
  the lemmas about `Walk` (scope isolation, branch copies, spans, and the
  `eval(@c)` failure) are lemmas about the class.
 */
module StrictIvars {
  import opened Wrappers
  import opened Syntax
  import opened Patch
  import opened Guards
  import opened Emission

  class Processor {
    /** The instance-variable names already guarded in the current scope. */
    var context: set<string>
    /** `[offset, text]` pairs, in the order they were pushed. */
    var annotations: seq<Annotation>
    /** Stands in for `SecureRandom.hex(8)`: the next temporary's number. */
    var nextTemp: nat

    /** `initialize`: an empty context and no annotations. */
    constructor ()
      ensures context == {} && annotations == [] && nextTemp == 0
    {
      context := {};
      annotations := [];
      nextTemp := 0;
    }

    /** `visit(node)`: dispatches on the node kind. */
    method Visit(n: Node)
      modifies this
      ensures annotations == old(annotations) + Walk(WrapperFirst, n, old(context), old(nextTemp)).emitted
      ensures context == Walk(WrapperFirst, n, old(context), old(nextTemp)).context
      ensures nextTemp == Walk(WrapperFirst, n, old(context), old(nextTemp)).nextTemp
      decreases n, 2
    {
      match n
      case IvarRead(_, _) => VisitInstanceVariableRead(n);
      case Scope(_, _, _) => VisitScope(n);
      case If(_, _, _, _) => VisitIf(n);
      case Case(_, _, _, _) => VisitCase(n);
      case Defined(_, _) => VisitDefined(n);
      case EmbeddedVar(_, _) => VisitEmbeddedVariable(n);
      case MethodCall(_, _, _, _, _) => VisitCall(n);
      case Arguments(items, _, _) => VisitAll(items);
      case Other(children, _) => VisitAll(children);
    }

    /** `visit(node)` where `node` may be `nil`. */
    method VisitOption(o: Option<Node>)
      modifies this
      ensures annotations == old(annotations) + WalkOption(WrapperFirst, o, old(context), old(nextTemp)).emitted
      ensures context == WalkOption(WrapperFirst, o, old(context), old(nextTemp)).context
      ensures nextTemp == WalkOption(WrapperFirst, o, old(context), old(nextTemp)).nextTemp
      decreases o
    {
      if o.Some? {
        Visit(o.value);
      }
    }

    /** The generic visit of a node's children, in order. */
    method VisitAll(ns: seq<Node>)
      modifies this
      ensures annotations == old(annotations) + WalkAll(WrapperFirst, ns, old(context), old(nextTemp)).emitted
      ensures context == WalkAll(WrapperFirst, ns, old(context), old(nextTemp)).context
      ensures nextTemp == WalkAll(WrapperFirst, ns, old(context), old(nextTemp)).nextTemp
      decreases ns
    {
      var i := 0;
      while i < |ns|
        invariant 0 <= i <= |ns|
        invariant annotations == old(annotations) + WalkAll(WrapperFirst, ns[..i], old(context), old(nextTemp)).emitted
        invariant context == WalkAll(WrapperFirst, ns[..i], old(context), old(nextTemp)).context
        invariant nextTemp == WalkAll(WrapperFirst, ns[..i], old(context), old(nextTemp)).nextTemp
      {
        assert ns[..i + 1][..i] == ns[..i];
        Visit(ns[i]);
        i := i + 1;
      }
      assert ns[..i] == ns;
    }

    /**
      `visit_def_node`, `visit_class_node`, `visit_module_node`,
      `visit_singleton_class_node` and `visit_block_node`: `new_context { super }`.
      The body is visited with an empty context; the old one is put back after.
     */
    method VisitScope(n: Node)
      requires n.Scope?
      modifies this
      ensures annotations == old(annotations) + Walk(WrapperFirst, n, old(context), old(nextTemp)).emitted
      ensures context == old(context)
      ensures nextTemp == Walk(WrapperFirst, n, old(context), old(nextTemp)).nextTemp
      decreases n, 1
    {
      var original := context;
      context := {};
      VisitAll(n.children);
      context := original;
    }

    /**
      `branch { visit(node) }`: the node is visited with a copy of the
      context, and the original is put back after.
     */
    method Branch(n: Node)
      modifies this
      ensures annotations == old(annotations) + Walk(WrapperFirst, n, old(context), old(nextTemp)).emitted
      ensures context == old(context)
      ensures nextTemp == Walk(WrapperFirst, n, old(context), old(nextTemp)).nextTemp
      decreases n, 3
    {
      var original := context;
      context := original;
      Visit(n);
      context := original;
    }

    /** `branch { visit(node) }` where `node` may be `nil`, which visits nothing. */
    method BranchOption(o: Option<Node>)
      modifies this
      ensures annotations == old(annotations) + WalkOption(WrapperFirst, o, old(context), old(nextTemp)).emitted
      ensures context == old(context)
      ensures nextTemp == WalkOption(WrapperFirst, o, old(context), old(nextTemp)).nextTemp
      decreases o
    {
      if o.Some? {
        Branch(o.value);
      }
    }

    /** `visit_if_node`: the predicate in place, then each arm in a branch. */
    method VisitIf(n: Node)
      requires n.If?
      modifies this
      ensures annotations == old(annotations) + Walk(WrapperFirst, n, old(context), old(nextTemp)).emitted
      ensures context == Walk(WrapperFirst, n, old(context), old(nextTemp)).context
      ensures nextTemp == Walk(WrapperFirst, n, old(context), old(nextTemp)).nextTemp
      decreases n, 1
    {
      ghost var before, ctx, temp := annotations, context, nextTemp;
      ghost var c := Walk(WrapperFirst, n.condition, ctx, temp);
      Visit(n.condition);
      ghost var t := WalkOption(WrapperFirst, n.statements, context, nextTemp);
      BranchOption(n.statements);
      ConcatAssociates(before, c.emitted, t.emitted);
      ghost var e := WalkOption(WrapperFirst, n.subsequent, context, nextTemp);
      BranchOption(n.subsequent);
      ConcatAssociates(before, c.emitted + t.emitted, e.emitted);
      assert Walk(WrapperFirst, n, ctx, temp) == Trace(c.emitted + t.emitted + e.emitted, c.context, e.nextTemp);
    }

    /** `visit_case_node`: the predicate in place, then each `when` and the `else` in a branch. */
    method VisitCase(n: Node)
      requires n.Case?
      modifies this
      ensures annotations == old(annotations) + Walk(WrapperFirst, n, old(context), old(nextTemp)).emitted
      ensures context == Walk(WrapperFirst, n, old(context), old(nextTemp)).context
      ensures nextTemp == Walk(WrapperFirst, n, old(context), old(nextTemp)).nextTemp
      decreases n, 1
    {
      ghost var start, ctx0, temp0 := annotations, context, nextTemp;
      VisitOption(n.subject);
      var whens := n.whens;
      var ctx, temp, before := context, nextTemp, annotations;
      var i := 0;
      while i < |whens|
        invariant 0 <= i <= |whens|
        invariant annotations == before + WalkBranches(WrapperFirst, whens[..i], ctx, temp).emitted
        invariant context == ctx
        invariant nextTemp == WalkBranches(WrapperFirst, whens[..i], ctx, temp).nextTemp
      {
        assert whens[..i + 1][..i] == whens[..i];
        Branch(whens[i]);
        i := i + 1;
      }
      assert whens[..i] == whens;
      ghost var p := WalkOption(WrapperFirst, n.subject, ctx0, temp0);
      ghost var w := WalkBranches(WrapperFirst, whens, ctx, temp);
      ConcatAssociates(start, p.emitted, w.emitted);
      ghost var e := WalkOption(WrapperFirst, n.elseClause, context, nextTemp);
      BranchOption(n.elseClause);
      ConcatAssociates(start, p.emitted + w.emitted, e.emitted);
      assert Walk(WrapperFirst, n, ctx0, temp0) == Trace(p.emitted + w.emitted + e.emitted, p.context, e.nextTemp);
    }

    /** `visit_defined_node`: `defined?(@x)` is left alone; anything else is visited. */
    method VisitDefined(n: Node)
      requires n.Defined?
      modifies this
      ensures annotations == old(annotations) + Walk(WrapperFirst, n, old(context), old(nextTemp)).emitted
      ensures context == Walk(WrapperFirst, n, old(context), old(nextTemp)).context
      ensures nextTemp == Walk(WrapperFirst, n, old(context), old(nextTemp)).nextTemp
      decreases n, 1
    {
      if n.value.IvarRead? {
        return;
      }
      Visit(n.value);
    }

    /**
      `visit_embedded_variable_node`: `#@x` for a name not yet guarded is
      wrapped in braces, since the guard is an expression and `#(...)` is
      not interpolation.
     */
    method VisitEmbeddedVariable(n: Node)
      requires n.EmbeddedVar?
      modifies this
      ensures annotations == old(annotations) + Walk(WrapperFirst, n, old(context), old(nextTemp)).emitted
      ensures context == Walk(WrapperFirst, n, old(context), old(nextTemp)).context
      ensures nextTemp == Walk(WrapperFirst, n, old(context), old(nextTemp)).nextTemp
      decreases n, 1
    {
      var variable := n.variable;
      if !variable.IvarRead? || variable.name in context {
        Visit(variable);
        return;
      }
      annotations := annotations + [Annotation(variable.loc.start, "{")];
      Visit(variable);
      annotations := annotations + [Annotation(variable.loc.end, "}")];
    }

    /** `visit_instance_variable_read_node`: the first read of a name in a context is guarded. */
    method VisitInstanceVariableRead(n: Node)
      requires n.IvarRead?
      modifies this
      ensures annotations == old(annotations) + Walk(WrapperFirst, n, old(context), old(nextTemp)).emitted
      ensures context == old(context) + {n.name}
      ensures nextTemp == old(nextTemp)
      decreases n, 1
    {
      if n.name !in context {
        context := context + {n.name};
        annotations := annotations + [Annotation(n.loc.start, GuardOpening(n.name)),
                                      Annotation(n.loc.end, GuardClosing(n.name))];
      }
    }

    /**
      `visit_call_node`: a call to one of `EVAL_METHODS` with arguments has
      its receiver bound to a fresh temporary and its arguments routed
      through the runtime wrapper. All of the wrapper is pushed first; then
      `super` visits the receiver, the arguments and the block.
     */
    method VisitCall(n: Node)
      requires n.MethodCall?
      modifies this
      ensures annotations == old(annotations) + Walk(WrapperFirst, n, old(context), old(nextTemp)).emitted
      ensures context == Walk(WrapperFirst, n, old(context), old(nextTemp)).context
      ensures nextTemp == Walk(WrapperFirst, n, old(context), old(nextTemp)).nextTemp
      decreases n, 1
    {
      ghost var before, ctx, temp := annotations, context, nextTemp;
      if n.name in EvalMethods && n.arguments.Some? {
        PushEvalWrapper(n);
        ghost var wrapper := EvalWrapper(n, temp);
        ghost var r := WalkOption(WrapperFirst, n.receiver, context, nextTemp);
        VisitOption(n.receiver);
        ConcatAssociates(before, wrapper, r.emitted);
        ghost var a := WalkOption(WrapperFirst, n.arguments, context, nextTemp);
        VisitOption(n.arguments);
        ConcatAssociates(before, wrapper + r.emitted, a.emitted);
        ghost var b := WalkOption(WrapperFirst, n.block, context, nextTemp);
        VisitOption(n.block);
        ConcatAssociates(before, wrapper + r.emitted + a.emitted, b.emitted);
        assert WalkEvalCall(WrapperFirst, n, ctx, temp)
               == Trace(wrapper + r.emitted + a.emitted + b.emitted, b.context, b.nextTemp);
      } else {
        ghost var r := WalkOption(WrapperFirst, n.receiver, ctx, temp);
        VisitOption(n.receiver);
        ghost var a := WalkOption(WrapperFirst, n.arguments, context, nextTemp);
        VisitOption(n.arguments);
        ConcatAssociates(before, r.emitted, a.emitted);
        ghost var b := WalkOption(WrapperFirst, n.block, context, nextTemp);
        VisitOption(n.block);
        ConcatAssociates(before, r.emitted + a.emitted, b.emitted);
        assert Walk(WrapperFirst, n, ctx, temp) == Trace(r.emitted + a.emitted + b.emitted, b.context, b.nextTemp);
      }
    }

    /**
      The eval-call part of `visit_call_node`: the receiver, if any, is
      bound to a temporary drawn from the counter, and all four (or, with no
      receiver, both) pieces of the wrapper are pushed at once.
     */
    method PushEvalWrapper(n: Node)
      requires n.MethodCall? && n.arguments.Some?
      modifies this
      ensures annotations == old(annotations) + EvalWrapper(n, old(nextTemp))
      ensures context == old(context)
      ensures nextTemp == if n.receiver.Some? then old(nextTemp) + 1 else old(nextTemp)
    {
      var args := n.arguments.value;
      var closing := ArgumentsClosing(ContainsForwarding(args));
      if n.receiver.Some? {
        var local := TempName(nextTemp);
        nextTemp := nextTemp + 1;
        var receiver := n.receiver.value;
        annotations := annotations + [Annotation(receiver.loc.start, ReceiverOpening(local)),
                                      Annotation(receiver.loc.end, ReceiverClosing),
                                      Annotation(args.loc.start, ArgumentsOpening(local, n.name)),
                                      Annotation(args.loc.end, closing)];
      } else {
        annotations := annotations + [Annotation(args.loc.start, ArgumentsOpening("self", n.name)),
                                      Annotation(args.loc.end, closing)];
      }
    }
  }

  /**
    `StrictIvars::BaseProcessor.call`: visit the program (`root` is what the
    parser returns for `source`), sort the annotations by offset and insert
    them from the last to the first. An offset past the end of the source
    makes the insertion raise.
   */
  method Call(source: string, root: Node) returns (r: Applied)
    ensures r.Applied? <==> forall a | a in Walk(WrapperFirst, root, {}, 0).emitted :: a.offset <= |source|
    ensures r.Applied? ==> r.text == Render(Spliced(source, Walk(WrapperFirst, root, {}, 0).emitted))
    ensures Nested(root) && root.loc.end <= |source| ==> r.Applied?
  {
    var visitor := new Processor();
    visitor.Visit(root);
    assert visitor.annotations == [] + Walk(WrapperFirst, root, {}, 0).emitted == Walk(WrapperFirst, root, {}, 0).emitted;
    r := Apply(source, visitor.annotations);
    if Nested(root) {
      WalkStaysInside(WrapperFirst, root, {}, 0);
    }
  }
}
