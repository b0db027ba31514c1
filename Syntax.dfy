/**
  The parsed Ruby program the rewriter walks, reduced to the node kinds the
  visitor treats specially. Every node carries its span in the original
  source as character offsets; kinds the visitor has no rule for are an
  `Other` node whose children are visited in order.
 */
module Syntax {
  import opened Wrappers

  /** A node's span: `start` and `end` character offsets into the source. */
  datatype Loc = Loc(start: nat, end: nat)

  /** The node kinds whose body is a fresh field-guard scope. */
  datatype ScopeKind = DefScope | ClassScope | ModuleScope | SingletonClassScope | BlockScope

  datatype Node =
      /** `@name` read as a value; `name` includes the `@`. */
    | IvarRead(name: string, loc: Loc)
      /** A method definition, class, module, singleton class or block: all its children. */
    | Scope(kind: ScopeKind, children: seq<Node>, loc: Loc)
      /** `if`, a modifier `if` or a ternary; `subsequent` is an `elsif`/`else` node. */
    | If(condition: Node, statements: Option<Node>, subsequent: Option<Node>, loc: Loc)
      /** `case`; each `when` clause (its conditions and its body) is one node. */
    | Case(subject: Option<Node>, whens: seq<Node>, elseClause: Option<Node>, loc: Loc)
      /** `defined?(value)`. */
    | Defined(value: Node, loc: Loc)
      /** Shorthand interpolation `#@x` (also `#$x`, `#@@x`) inside a string. */
    | EmbeddedVar(variable: Node, loc: Loc)
      /** A method call `receiver.name(arguments) block`. */
    | MethodCall(name: string, receiver: Option<Node>, arguments: Option<Node>, block: Option<Node>, loc: Loc)
      /** An argument list; `forwarding` is set when it contains `...`. */
    | Arguments(items: seq<Node>, forwarding: bool, loc: Loc)
      /** Any other node kind. */
    | Other(children: seq<Node>, loc: Loc)

  /** A child slot that may be `nil`, as a list of zero or one nodes. */
  function OptionList(o: Option<Node>): seq<Node> {
    if o.Some? then [o.value] else []
  }

  /** The children of a node in the order a generic visit reaches them. */
  function Children(n: Node): seq<Node> {
    match n
    case IvarRead(_, _) => []
    case Scope(_, children, _) => children
    case If(condition, statements, subsequent, _) => [condition] + OptionList(statements) + OptionList(subsequent)
    case Case(subject, whens, elseClause, _) => OptionList(subject) + whens + OptionList(elseClause)
    case Defined(value, _) => [value]
    case EmbeddedVar(variable, _) => [variable]
    case MethodCall(_, receiver, arguments, block, _) => OptionList(receiver) + OptionList(arguments) + OptionList(block)
    case Arguments(items, _, _) => items
    case Other(children, _) => children
  }

  predicate Inside(inner: Loc, outer: Loc) {
    outer.start <= inner.start && inner.end <= outer.end
  }

  /** Sibling spans do not overlap and follow source order. */
  predicate InOrder(ns: seq<Node>) {
    forall i, j | 0 <= i < j < |ns| :: ns[i].loc.end <= ns[j].loc.start
  }

  /**
    Spans as a parser reports them for ordinary code: each span is an
    interval, a child's span lies inside its parent's, and siblings come in
    source order. (A heredoc body lies outside its node's span, so a
    heredoc breaks this.)
   */
  predicate WellFormed(n: Node)
    decreases n
  {
    n.loc.start <= n.loc.end
    && InOrder(Children(n))
    && (forall c | c in Children(n) :: Inside(c.loc, n.loc))
    && match n
       case IvarRead(_, _) => true
       case Scope(_, children, _) => forall i | 0 <= i < |children| :: WellFormed(children[i])
       case If(condition, statements, subsequent, _) =>
         WellFormed(condition)
         && (statements.Some? ==> WellFormed(statements.value))
         && (subsequent.Some? ==> WellFormed(subsequent.value))
       case Case(subject, whens, elseClause, _) =>
         (subject.Some? ==> WellFormed(subject.value))
         && (forall i | 0 <= i < |whens| :: WellFormed(whens[i]))
         && (elseClause.Some? ==> WellFormed(elseClause.value))
       case Defined(value, _) => WellFormed(value)
       case EmbeddedVar(variable, _) => WellFormed(variable)
       case MethodCall(_, receiver, arguments, block, _) =>
         (receiver.Some? ==> WellFormed(receiver.value))
         && (arguments.Some? ==> WellFormed(arguments.value))
         && (block.Some? ==> WellFormed(block.value))
       case Arguments(items, _, _) => forall i | 0 <= i < |items| :: WellFormed(items[i])
       case Other(children, _) => forall i | 0 <= i < |children| :: WellFormed(children[i])
  }

  /**
    Spans that nest: each span is an interval and lies inside its parent's,
    whatever the order of the siblings. A modifier `if` (`body if
    predicate`), whose predicate is visited first but written last, is
    nested but not `WellFormed`.
   */
  predicate Nested(n: Node)
    decreases n
  {
    n.loc.start <= n.loc.end
    && (forall c | c in Children(n) :: Inside(c.loc, n.loc))
    && match n
       case IvarRead(_, _) => true
       case Scope(_, children, _) => forall i | 0 <= i < |children| :: Nested(children[i])
       case If(condition, statements, subsequent, _) =>
         Nested(condition)
         && (statements.Some? ==> Nested(statements.value))
         && (subsequent.Some? ==> Nested(subsequent.value))
       case Case(subject, whens, elseClause, _) =>
         (subject.Some? ==> Nested(subject.value))
         && (forall i | 0 <= i < |whens| :: Nested(whens[i]))
         && (elseClause.Some? ==> Nested(elseClause.value))
       case Defined(value, _) => Nested(value)
       case EmbeddedVar(variable, _) => Nested(variable)
       case MethodCall(_, receiver, arguments, block, _) =>
         (receiver.Some? ==> Nested(receiver.value))
         && (arguments.Some? ==> Nested(arguments.value))
         && (block.Some? ==> Nested(block.value))
       case Arguments(items, _, _) => forall i | 0 <= i < |items| :: Nested(items[i])
       case Other(children, _) => forall i | 0 <= i < |children| :: Nested(children[i])
  }

  /**
    Three optional sibling slots whose present nodes are in source order
    inside `loc`: each present node lies inside `loc` and ends before the
    later ones start.
   */
  lemma TripleSpans(x: Option<Node>, y: Option<Node>, z: Option<Node>, loc: Loc)
    requires InOrder(OptionList(x) + OptionList(y) + OptionList(z))
    requires forall c | c in OptionList(x) + OptionList(y) + OptionList(z) :: Inside(c.loc, loc)
    ensures x.Some? ==> Inside(x.value.loc, loc)
    ensures y.Some? ==> Inside(y.value.loc, loc)
    ensures z.Some? ==> Inside(z.value.loc, loc)
    ensures x.Some? && y.Some? ==> x.value.loc.end <= y.value.loc.start
    ensures y.Some? && z.Some? ==> y.value.loc.end <= z.value.loc.start
    ensures x.Some? && z.Some? ==> x.value.loc.end <= z.value.loc.start
  {
    var all := OptionList(x) + OptionList(y) + OptionList(z);
    var ix := |OptionList(x)|;
    var iy := ix + |OptionList(y)|;
    if x.Some? { assert all[0] == x.value; }
    if y.Some? { assert all[ix] == y.value; }
    if z.Some? { assert all[iy] == z.value; }
  }

  /** The spans of a `case`: subject, then the `when` clauses in order, then `else`. */
  lemma CaseSpans(subject: Option<Node>, whens: seq<Node>, elseClause: Option<Node>, loc: Loc)
    requires InOrder(OptionList(subject) + whens + OptionList(elseClause))
    requires forall c | c in OptionList(subject) + whens + OptionList(elseClause) :: Inside(c.loc, loc)
    ensures subject.Some? ==> Inside(subject.value.loc, loc)
    ensures elseClause.Some? ==> Inside(elseClause.value.loc, loc)
    ensures subject.Some? && elseClause.Some? ==> subject.value.loc.end <= elseClause.value.loc.start
    ensures InOrder(whens)
    ensures forall k | 0 <= k < |whens| :: Inside(whens[k].loc, loc)
    ensures subject.Some? ==> forall k | 0 <= k < |whens| :: subject.value.loc.end <= whens[k].loc.start
    ensures elseClause.Some? ==> forall k | 0 <= k < |whens| :: whens[k].loc.end <= elseClause.value.loc.start
  {
    var all := OptionList(subject) + whens + OptionList(elseClause);
    var s := |OptionList(subject)|;
    forall k | 0 <= k < |whens| ensures all[s + k] == whens[k] && all[s + k] in all { }
    if subject.Some? { assert all[0] == subject.value; }
    if elseClause.Some? { assert all[s + |whens|] == elseClause.value; }
    forall i, j | 0 <= i < j < |whens| ensures whens[i].loc.end <= whens[j].loc.start {
      assert all[s + i] == whens[i] && all[s + j] == whens[j];
    }
  }
}
