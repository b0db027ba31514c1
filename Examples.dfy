/**
  The behaviours the processor's own test suite describes: which reads get
  a guard and in which order, stated for any names and positions in the
  shape of each test, and what the rewritten text looks like, for the
  `basic` test on its own text and for interpolation on any source.
 */
module Examples {
  import opened Wrappers
  import opened Syntax
  import opened Patch
  import opened Guards
  import opened Emission

  /**
    A program with a single guarded read: the read's text is wrapped in the
    guard, everything else is copied unchanged.
   */
  lemma GuardedReadText(source: string, name: string, loc: Loc)
    requires loc.start <= loc.end <= |source|
    ensures Render(Spliced(source, Guard(name, loc)))
            == source[..loc.start] + GuardOpening(name) + source[loc.start..loc.end]
               + GuardClosing(name) + source[loc.end..]
  {
    var opening := Annotation(loc.start, GuardOpening(name));
    var closing := Annotation(loc.end, GuardClosing(name));
    assert Guard(name, loc) == [opening] + [closing];
    assert [closing] == [closing] + [];
    var rest := Render(SplicedFrom(source, [closing], loc.start));
    SplicedFromRest(source, loc.end);
    SplicedFromNext(source, closing, [], loc.start);
    assert rest == source[loc.start..loc.end] + closing.text + source[loc.end..];
    SplicedFromNext(source, opening, [closing], 0);
    assert source[0..loc.start] == source[..loc.start];
  }

  const BasicBefore: string := "def foo\n\t"
  const BasicAfter: string := "\nend\n"
  /** `def foo`, then `@foo` on its own line, then `end`. */
  const BasicSource: string := BasicBefore + "@foo" + BasicAfter
  const BasicTree: Node := Scope(DefScope, [IvarRead("@foo", Loc(9, 13))], Loc(0, 17))

  /** The "basic" case: the one read is guarded in place and the rest of the text is kept. */
  lemma Basic()
    ensures Walk(WrapperFirst, BasicTree, {}, 0).emitted == Guard("@foo", Loc(9, 13))
    ensures Render(Spliced(BasicSource, Walk(WrapperFirst, BasicTree, {}, 0).emitted))
            == BasicBefore + GuardOpening("@foo") + "@foo" + GuardClosing("@foo") + BasicAfter
  {
    WalkAllSingle(WrapperFirst, IvarRead("@foo", Loc(9, 13)), {}, 0);
    var source := BasicSource;
    assert |BasicBefore| == 9 && |source| == 18;
    assert source[..9] == BasicBefore;
    assert source[9..13] == "@foo";
    assert source[13..] == BasicAfter;
    GuardedReadText(source, "@foo", Loc(9, 13));
  }

  /** Two reads of the same name: only the first can be guarded. */
  lemma RepeatedRead(name: string, first: Loc, second: Loc, ctx: set<string>)
    ensures WalkAll(WrapperFirst, [IvarRead(name, first), IvarRead(name, second)], ctx, 0)
            == Trace(if name in ctx then [] else Guard(name, first), ctx + {name}, 0)
  {
    WalkAllAppend(WrapperFirst, [IvarRead(name, first)], [IvarRead(name, second)], ctx, 0);
    WalkAllSingle(WrapperFirst, IvarRead(name, first), ctx, 0);
    WalkAllSingle(WrapperFirst, IvarRead(name, second), ctx + {name}, 0);
  }

  /**
    Two reads of `name`, then a class, module, singleton class or block body
    reading it twice more: the first read on each side of the boundary is
    guarded, the second is not, and the body leaves the outer context as it
    was.
   */
  lemma ScopeIsolation(kind: ScopeKind, name: string, first: Loc, second: Loc, third: Loc, fourth: Loc,
                       body: Loc, whole: Loc)
    ensures var inner := Scope(kind, [IvarRead(name, third), IvarRead(name, fourth)], body);
            Walk(WrapperFirst, Other([IvarRead(name, first), IvarRead(name, second), inner], whole), {}, 0)
            == Trace(Guard(name, first) + Guard(name, third), {name}, 0)
  {
    var inner := Scope(kind, [IvarRead(name, third), IvarRead(name, fourth)], body);
    RepeatedRead(name, first, second, {});
    RepeatedRead(name, third, fourth, {});
    WalkAllAppend(WrapperFirst, [IvarRead(name, first), IvarRead(name, second)], [inner], {}, 0);
    WalkAllSingle(WrapperFirst, inner, {name}, 0);
    assert [IvarRead(name, first), IvarRead(name, second), inner]
           == [IvarRead(name, first), IvarRead(name, second)] + [inner];
  }

  /** Reads of `a`, `b` and `c` in turn once `a` and `b` are guarded: only `c` is. */
  lemma ThirdReadGuarded(a: string, b: string, c: string, la: Loc, lb: Loc, lc: Loc, ctx: set<string>)
    requires a in ctx && b in ctx && c !in ctx
    ensures WalkAll(WrapperFirst, [IvarRead(a, la), IvarRead(b, lb), IvarRead(c, lc)], ctx, 0)
            == Trace(Guard(c, lc), ctx + {c}, 0)
  {
    WalkAllAppend(WrapperFirst, [IvarRead(a, la), IvarRead(b, lb)], [IvarRead(c, lc)], ctx, 0);
    WalkAllAppend(WrapperFirst, [IvarRead(a, la)], [IvarRead(b, lb)], ctx, 0);
    WalkAllSingle(WrapperFirst, IvarRead(a, la), ctx, 0);
    WalkAllSingle(WrapperFirst, IvarRead(b, lb), ctx, 0);
    WalkAllSingle(WrapperFirst, IvarRead(c, lc), ctx, 0);
    assert [IvarRead(a, la), IvarRead(b, lb), IvarRead(c, lc)]
           == [IvarRead(a, la), IvarRead(b, lb)] + [IvarRead(c, lc)];
  }

  /**
    `@a; if @b then @a; @b; @c else @a; @b; @c end; @a; @b; @c`: the
    condition's read counts in both arms and after the `if`; a read inside
    one arm counts in neither the other arm nor after the `if`.
   */
  lemma IfConditional(a: string, b: string, c: string, la: Loc, lb: Loc, lc1: Loc, lc2: Loc, lc3: Loc,
                      others: seq<Loc>, thenLoc: Loc, elseLoc: Loc, ifLoc: Loc, defLoc: Loc)
    requires a != b && b != c && a != c
    requires |others| == 6
    ensures var thenArm := Other([IvarRead(a, others[0]), IvarRead(b, others[1]), IvarRead(c, lc1)], thenLoc);
            var elseArm := Other([IvarRead(a, others[2]), IvarRead(b, others[3]), IvarRead(c, lc2)], elseLoc);
            var body := [IvarRead(a, la), If(IvarRead(b, lb), Some(thenArm), Some(elseArm), ifLoc),
                         IvarRead(a, others[4]), IvarRead(b, others[5]), IvarRead(c, lc3)];
            Walk(WrapperFirst, Scope(DefScope, body, defLoc), {}, 0).emitted
            == Guard(a, la) + Guard(b, lb) + Guard(c, lc1) + Guard(c, lc2) + Guard(c, lc3)
  {
    var ab := {a, b};
    var thenList := [IvarRead(a, others[0]), IvarRead(b, others[1]), IvarRead(c, lc1)];
    var elseList := [IvarRead(a, others[2]), IvarRead(b, others[3]), IvarRead(c, lc2)];
    var tail := [IvarRead(a, others[4]), IvarRead(b, others[5]), IvarRead(c, lc3)];
    var conditional := If(IvarRead(b, lb), Some(Other(thenList, thenLoc)), Some(Other(elseList, elseLoc)), ifLoc);
    ThirdReadGuarded(a, b, c, others[0], others[1], lc1, ab);
    ThirdReadGuarded(a, b, c, others[2], others[3], lc2, ab);
    ThirdReadGuarded(a, b, c, others[4], others[5], lc3, ab);
    assert {a} + {b} == ab;
    var cond := Walk(WrapperFirst, IvarRead(b, lb), {a}, 0);
    assert cond == Trace(Guard(b, lb), ab, 0);
    assert WalkOption(WrapperFirst, Some(Other(thenList, thenLoc)), ab, 0) == Trace(Guard(c, lc1), ab + {c}, 0);
    assert WalkOption(WrapperFirst, Some(Other(elseList, elseLoc)), ab, 0) == Trace(Guard(c, lc2), ab + {c}, 0);
    var w := Walk(WrapperFirst, conditional, {a}, 0);
    assert w == Trace(Guard(b, lb) + Guard(c, lc1) + Guard(c, lc2), ab, 0);
    WalkAllSingle(WrapperFirst, IvarRead(a, la), {}, 0);
    assert Walk(WrapperFirst, IvarRead(a, la), {}, 0) == Trace(Guard(a, la), {a}, 0) by {
      assert {} + {a} == {a};
    }
    WalkAllSingle(WrapperFirst, conditional, {a}, 0);
    WalkAllAppend(WrapperFirst, [IvarRead(a, la)], [conditional], {}, 0);
    assert [IvarRead(a, la)] + [conditional] == [IvarRead(a, la), conditional];
    assert WalkAll(WrapperFirst, [IvarRead(a, la), conditional], {}, 0) == Trace(Guard(a, la) + w.emitted, ab, 0);
    WalkAllAppend(WrapperFirst, [IvarRead(a, la), conditional], tail, {}, 0);
    assert [IvarRead(a, la), conditional] + tail
           == [IvarRead(a, la), conditional, IvarRead(a, others[4]), IvarRead(b, others[5]), IvarRead(c, lc3)];
  }

  /**
    `case @b when @c then @a; @b; @c; @d else @a; @b; @c; @d end`, once
    `@a` is guarded: the subject's read counts everywhere after it; the
    `when` condition's read counts only inside its own clause, and nothing
    read in a clause counts after the `case`.
   */
  lemma CaseBranches(a: string, b: string, c: string, d: string, subject: Loc, condition: Loc,
                     whenReads: seq<Loc>, elseReads: seq<Loc>, whenBody: Loc, whenLoc: Loc, elseLoc: Loc,
                     caseLoc: Loc)
    requires a != b && a != c && a != d && b != c && b != d && c != d
    requires |whenReads| == 4 && |elseReads| == 4
    ensures var body := Other([IvarRead(a, whenReads[0]), IvarRead(b, whenReads[1]),
                               IvarRead(c, whenReads[2]), IvarRead(d, whenReads[3])], whenBody);
            var whenNode := Other([IvarRead(c, condition), body], whenLoc);
            var elseNode := Other([IvarRead(a, elseReads[0]), IvarRead(b, elseReads[1]),
                                   IvarRead(c, elseReads[2]), IvarRead(d, elseReads[3])], elseLoc);
            Walk(WrapperFirst, Case(Some(IvarRead(b, subject)), [whenNode], Some(elseNode), caseLoc), {a}, 0)
            == Trace(Guard(b, subject) + Guard(c, condition) + Guard(d, whenReads[3])
                     + Guard(c, elseReads[2]) + Guard(d, elseReads[3]), {a, b}, 0)
  {
    var ab := {a, b};
    var body := Other([IvarRead(a, whenReads[0]), IvarRead(b, whenReads[1]),
                       IvarRead(c, whenReads[2]), IvarRead(d, whenReads[3])], whenBody);
    var whenNode := Other([IvarRead(c, condition), body], whenLoc);
    var elseNode := Other([IvarRead(a, elseReads[0]), IvarRead(b, elseReads[1]),
                           IvarRead(c, elseReads[2]), IvarRead(d, elseReads[3])], elseLoc);
    assert {a} + {b} == ab;
    FourReads(a, b, c, d, whenReads, whenBody, ab + {c});
    FourReads(a, b, c, d, elseReads, elseLoc, ab);
    WalkAllSingle(WrapperFirst, IvarRead(c, condition), ab, 0);
    WalkAllSingle(WrapperFirst, body, ab + {c}, 0);
    WalkAllAppend(WrapperFirst, [IvarRead(c, condition)], [body], ab, 0);
    assert [IvarRead(c, condition), body] == [IvarRead(c, condition)] + [body];
    assert Walk(WrapperFirst, IvarRead(c, condition), ab, 0) == Trace(Guard(c, condition), ab + {c}, 0);
    assert Walk(WrapperFirst, body, ab + {c}, 0).emitted == Guard(d, whenReads[3]);
    assert Walk(WrapperFirst, body, ab + {c}, 0).nextTemp == 0;
    assert Walk(WrapperFirst, whenNode, ab, 0).emitted == Guard(c, condition) + Guard(d, whenReads[3]);
    assert Walk(WrapperFirst, whenNode, ab, 0).nextTemp == 0;
    assert [whenNode][..0] == [];
    assert WalkBranches(WrapperFirst, [whenNode], ab, 0) == Trace(Guard(c, condition) + Guard(d, whenReads[3]), ab, 0);
    assert Walk(WrapperFirst, elseNode, ab, 0).emitted == Guard(c, elseReads[2]) + Guard(d, elseReads[3]);
    assert Walk(WrapperFirst, IvarRead(b, subject), {a}, 0) == Trace(Guard(b, subject), ab, 0);
  }

  /** Reads of `a`, `b`, `c`, `d` in turn, starting from `ctx`: a guard for each one missing from it. */
  lemma FourReads(a: string, b: string, c: string, d: string, ls: seq<Loc>, loc: Loc, ctx: set<string>)
    requires |ls| == 4 && a in ctx && b in ctx && d !in ctx && c != d
    ensures var t := Walk(WrapperFirst, Other([IvarRead(a, ls[0]), IvarRead(b, ls[1]), IvarRead(c, ls[2]),
                                 IvarRead(d, ls[3])], loc), ctx, 0);
            t == Trace((if c in ctx then [] else Guard(c, ls[2])) + Guard(d, ls[3]), ctx + {c, d}, 0)
  {
    var front := [IvarRead(a, ls[0]), IvarRead(b, ls[1])];
    var back := [IvarRead(c, ls[2]), IvarRead(d, ls[3])];
    WalkAllAppend(WrapperFirst, [IvarRead(a, ls[0])], [IvarRead(b, ls[1])], ctx, 0);
    WalkAllSingle(WrapperFirst, IvarRead(a, ls[0]), ctx, 0);
    WalkAllSingle(WrapperFirst, IvarRead(b, ls[1]), ctx, 0);
    WalkAllAppend(WrapperFirst, [IvarRead(c, ls[2])], [IvarRead(d, ls[3])], ctx, 0);
    WalkAllSingle(WrapperFirst, IvarRead(c, ls[2]), ctx, 0);
    WalkAllSingle(WrapperFirst, IvarRead(d, ls[3]), ctx + {c}, 0);
    WalkAllAppend(WrapperFirst, front, back, ctx, 0);
    assert front + back == [IvarRead(a, ls[0]), IvarRead(b, ls[1]), IvarRead(c, ls[2]), IvarRead(d, ls[3])];
  }

  /**
    `"hello #@name"`: an unguarded read inside shorthand interpolation is
    wrapped in braces around its guard; once the name is guarded it is left
    alone.
   */
  lemma ShorthandInterpolation(name: string, read: Loc, loc: Loc, ctx: set<string>)
    ensures Walk(WrapperFirst, EmbeddedVar(IvarRead(name, read), loc), ctx, 0).emitted
            == if name in ctx then []
               else [Annotation(read.start, "{")] + Guard(name, read) + [Annotation(read.end, "}")]
  {
  }

  /**
    The rewritten text of `"hello #@name"`: `#@name` becomes `#{` guarded
    read `}`, a full interpolation, and the rest of the source is kept.
   */
  lemma ShorthandInterpolationText(source: string, name: string, read: Loc, loc: Loc, ctx: set<string>)
    requires name !in ctx && read.start < read.end <= |source|
    ensures Render(Spliced(source, Walk(WrapperFirst, EmbeddedVar(IvarRead(name, read), loc), ctx, 0).emitted))
            == source[..read.start] + "{" + GuardOpening(name) + source[read.start..read.end]
               + GuardClosing(name) + "}" + source[read.end..]
  {
    var a, b := Annotation(read.start, "{"), Annotation(read.start, GuardOpening(name));
    var c, d := Annotation(read.end, GuardClosing(name)), Annotation(read.end, "}");
    ShorthandInterpolation(name, read, loc, ctx);
    assert [a] + Guard(name, read) + [d] == [a, b, c, d];
    SplicedTwoOffsets(source, a, b, c, d);
  }

  /**
    `@name ||= "world"` then `"hello \#@name"`: an or-assignment is not a
    read and the escaped `#` makes the string plain text, so the method
    body gets no annotation at all.
   */
  lemma EscapedInterpolation(orWrite: Loc, world: Loc, text: Loc, defLoc: Loc, ctx: set<string>)
    ensures Walk(WrapperFirst, Scope(DefScope, [Other([Other([], world)], orWrite), Other([], text)], defLoc),
                 ctx, 0).emitted == []
  {
    var body := [Other([Other([], world)], orWrite), Other([], text)];
    assert Untouched(body[0]) by {
      assert Untouched(Other([], world));
    }
    UntouchedEmitsNothing(WrapperFirst, Scope(DefScope, body, defLoc), ctx, 0);
  }

  /** `return true if defined?(SomeConst)`: nothing to guard, nothing pushed. */
  lemma DefinedWithNonIvar(constant: Loc, tested: Loc, value: Loc, returnLoc: Loc, ifLoc: Loc, ctx: set<string>)
    ensures Walk(WrapperFirst, If(Defined(Other([], constant), tested), Some(Other([Other([], value)], returnLoc)),
                                  None, ifLoc), ctx, 0).emitted == []
  {
    var n := If(Defined(Other([], constant), tested), Some(Other([Other([], value)], returnLoc)), None, ifLoc);
    assert Untouched(Other([Other([], value)], returnLoc)) by {
      assert Untouched(Other([], value));
    }
    UntouchedEmitsNothing(WrapperFirst, n, ctx, 0);
  }

  /**
    `defined?(@name.call)`: only a bare read under `defined?` is skipped; a
    read inside a larger expression there is visited, guarded, and counts
    as guarded afterwards.
   */
  lemma DefinedOfCallGuardsReceiver(name: string, read: Loc, callee: string, callLoc: Loc, tested: Loc,
                                    ctx: set<string>)
    ensures Walk(WrapperFirst, Defined(MethodCall(callee, Some(IvarRead(name, read)), None, None, callLoc), tested), ctx, 0)
            == Trace(if name in ctx then [] else Guard(name, read), ctx + {name}, 0)
  {
    var call := MethodCall(callee, Some(IvarRead(name, read)), None, None, callLoc);
    var r := Walk(WrapperFirst, IvarRead(name, read), ctx, 0);
    assert WalkOption(WrapperFirst, Some(IvarRead(name, read)), ctx, 0) == r;
    assert Walk(WrapperFirst, call, ctx, 0) == Trace(r.emitted, r.context, 0);
  }

  /** `return @foo if defined?(@foo)`: the read under `defined?` is not guarded, the other one is. */
  lemma DefinedIsSkipped(name: string, tested: Loc, read: Loc, returnLoc: Loc, ifLoc: Loc)
    ensures Walk(WrapperFirst, If(Defined(IvarRead(name, tested), tested), Some(Other([IvarRead(name, read)], returnLoc)),
                    None, ifLoc), {}, 0).emitted
            == Guard(name, read)
  {
    WalkAllSingle(WrapperFirst, IvarRead(name, read), {}, 0);
    assert Walk(WrapperFirst, Defined(IvarRead(name, tested), tested), {}, 0) == Trace([], {}, 0);
    assert Walk(WrapperFirst, Other([IvarRead(name, read)], returnLoc), {}, 0).emitted == Guard(name, read);
  }

  /**
    `body if @name`: the modifier form visits its predicate first although
    it is written after the body. Its spans nest, so every annotation stays
    in range, but its children are out of source order, and the predicate's
    read is guarded.
   */
  lemma ModifierIfIsNestedOnly(name: string, body: Loc, read: Loc, loc: Loc)
    requires loc.start <= body.start < body.end <= read.start <= read.end <= loc.end
    ensures var n := If(IvarRead(name, read), Some(Other([], body)), None, loc);
            Nested(n) && !WellFormed(n) && Walk(WrapperFirst, n, {}, 0).emitted == Guard(name, read)
  {
    var n := If(IvarRead(name, read), Some(Other([], body)), None, loc);
    var children := Children(n);
    assert children == [IvarRead(name, read), Other([], body)];
    assert !InOrder(children) by {
      assert children[0].loc.end > children[1].loc.start;
    }
    assert Nested(children[1]);
    assert forall c | c in children :: Inside(c.loc, loc);
    assert Nested(n);
    assert Walk(WrapperFirst, Other([], body), {} + {name}, 0).emitted == [];
  }
}
