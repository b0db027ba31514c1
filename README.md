# strict_ivars: a Dafny model of the instance-variable guard rewriter

`strict_ivars` rewrites Ruby source so that reading an instance variable
that was never assigned raises `StrictIvars::NameError` instead of
quietly giving `nil`. `StrictIvars::Processor` walks the parsed program.
At the first read of `@x` in a scope it records two annotations:

- the text `(defined?(@x) ? ` at the read's start offset;
- the text ` : (::Kernel.raise(::StrictIvars::NameError.new(self, :@x))))` at its end offset.

It also adds `@x` to the context, the set of names already guarded. Later
reads in the same scope are left alone. The walk obeys these rules:

- `def`, `class`, `module`, `class << self` and block bodies start from an
  empty context, and the old context comes back afterwards.
- Each arm of an `if` and each `when`/`else` of a `case` is visited in a
  copy of the context. The copy is thrown away afterwards.
- A read directly under `defined?` is skipped.
- A shorthand interpolation `#@x` of an unguarded name is wrapped in braces
  so that the guard becomes legal inside the string.
- Calls to `eval`, `class_eval`, `module_eval` and `instance_eval` that
  have arguments get their arguments routed through
  `::StrictIvars.__process_eval_args__`. A receiver is first bound to a
  fresh temporary.

`StrictIvars::BaseProcessor.call` sorts the annotations by offset and
inserts them into the source from the last one to the first.

The model has these modules:

- `Syntax` is the parse tree, with character spans. `WellFormed` describes
  spans as a parser reports them for ordinary code. `Nested` is the weaker
  condition that also covers the modifier `if`.
- `Patch` covers the annotations, the sort, and the insertion as a method
  `Apply`. `Apply` is proved equal to a splice specification: the source
  interleaved with the annotation texts.
- `Guards` holds the visitor as pure functions. `Walk` gives the
  annotations, the context left behind and the temporary counter. It
  takes the order of an eval call's wrapper as a parameter:
  `WrapperFirst` is the order `visit_call_node` uses, pushing the whole
  wrapper before `super` visits the call's parts. `WrapAround` pushes each
  wrapper piece around the part it encloses, which is the fix for the
  finding below. The two orders push the same annotations and agree
  exactly on trees without an eval call. The lemmas about the context
  discipline are here too.
- `Emission` proves that on nested spans every annotation lies inside the
  source, in either order. It proves that on well-formed spans the
  `WrapAround` order pushes annotations already sorted by offset. The
  processor's own order does the same on trees without an eval call.
  `Emission` also holds the finding below.
- `StrictIvars` holds the class `Processor`, with mutable fields `context`,
  `annotations` and `nextTemp`. Every one of its visit methods is proved to
  follow `Walk` in the `WrapperFirst` order. `Call` is `self.call`, with
  the parse tree as a parameter.
- `Examples` restates the cases of the processor's test suite. Most are
  stated for any names and positions in the shape of the test. The `basic`
  test is stated on its own text.

## Model

| member | source | states |
|---|---|---|
| StrictIvars.Processor.constructor | lib/strict_ivars/base_processor.rb:21-24 | a new processor has an empty context, no annotations and a fresh counter |
| StrictIvars.Processor.Visit | lib/strict_ivars/base_processor.rb:3 | visiting any node appends exactly the annotations `Walk` gives, and leaves the context and counter `Walk` gives |
| StrictIvars.Processor.VisitOption | lib/strict_ivars/processor.rb:31-34 | `visit(nil)` does nothing; otherwise as `Visit` |
| StrictIvars.Processor.VisitAll | lib/strict_ivars/processor.rb:86 | the children are visited left to right, each from the context the previous one left, as `WalkAll` |
| StrictIvars.Processor.VisitScope | lib/strict_ivars/processor.rb:5-27 | a scope body is visited from an empty context and the caller's context is restored unchanged afterwards |
| StrictIvars.Processor.Branch | lib/strict_ivars/processor.rb:103-112 | a branch appends the node's annotations but leaves the context exactly as before |
| StrictIvars.Processor.BranchOption | lib/strict_ivars/processor.rb:33-34 | `branch { visit(nil) }` leaves everything unchanged; otherwise as `Branch` |
| StrictIvars.Processor.VisitIf | lib/strict_ivars/processor.rb:30-35 | condition in the current context, both arms as branches; the result is `Walk` of the `if` |
| StrictIvars.Processor.VisitCase | lib/strict_ivars/processor.rb:38-46 | subject in the current context, each `when` and the `else` as a branch (loop with invariants); the result is `Walk` of the `case` |
| StrictIvars.Processor.VisitDefined | lib/strict_ivars/processor.rb:49-55 | `defined?(@x)` pushes nothing and keeps the context; any other operand is visited |
| StrictIvars.Processor.VisitEmbeddedVariable | lib/strict_ivars/processor.rb:58-69 | an unguarded `#@x` gets `{` before and `}` after its guard; otherwise the variable is visited normally |
| StrictIvars.Processor.VisitInstanceVariableRead | lib/strict_ivars/processor.rb:72-87 | the read's name joins the context and the counter is unchanged; the guard pair is appended exactly when the name was not yet in the context |
| StrictIvars.Processor.VisitCall | lib/strict_ivars/base_processor.rb:29-60 | an eval-family call with arguments first pushes its whole wrapper, then `super` visits receiver, arguments and block; any other call only visits those parts; the result is `Walk` in the `WrapperFirst` order |
| StrictIvars.Processor.PushEvalWrapper | lib/strict_ivars/base_processor.rb:32-57 | appends the four wrapper annotations (receiver bound to the temporary of the current counter value, which then advances) or, without a receiver, the two naming `self`; the context is unchanged |
| StrictIvars.Call | lib/strict_ivars/base_processor.rb:7-19 | the rewrite succeeds exactly when every annotation offset is at most the source length. The result is the source spliced with the visitor's annotations. On a tree whose spans nest inside the source it always succeeds |
| Patch.SortByOffset | lib/strict_ivars/base_processor.rb:12 | the sorted list is ordered by offset, is a permutation of the input and keeps the relative order of entries at the same offset |
| Patch.InsertByOffsetPermutes | lib/strict_ivars/base_processor.rb:12 | one insertion step of the sort keeps the multiset of annotations and their total text length |
| Patch.InsertByOffsetSorts | lib/strict_ivars/base_processor.rb:12 | one insertion step keeps a sorted list sorted |
| Patch.InsertAll | lib/strict_ivars/base_processor.rb:14-16 | inserting all texts from the back lengthens the buffer by their total length |
| Patch.Apply | lib/strict_ivars/base_processor.rb:10-18 | the sort plus reverse insertion loop yields the splice of the source with the annotations; it raises `IndexError` at the largest offset exactly when some offset exceeds the source length |
| Patch.SortedInsertAllIsSpliced | lib/strict_ivars/base_processor.rb:14-16 | inserting a sorted list from the back equals splicing each text in front of its offset |
| Patch.SortKeepsSplice | lib/strict_ivars/base_processor.rb:12 | sorting by offset does not change the splice |
| Patch.SplicedKeepsSource | lib/strict_ivars/base_processor.rb:14-16 | removing the inserted texts from the result gives back the original source |
| Patch.SplicedLength | lib/strict_ivars/base_processor.rb:14-16 | the result is as long as the source plus all inserted texts |
| Patch.SplicedWithoutAnnotations | lib/strict_ivars/base_processor.rb:7-19 | with no annotations the source comes back unchanged |
| Patch.SortOfSortedIsIdentity | lib/strict_ivars/base_processor.rb:12 | sorting an already sorted list changes nothing |
| Guards.TempNamesDiffer | lib/strict_ivars/base_processor.rb:42 | two different counter values give two different receiver temporaries |
| Guards.DecimalInjective | lib/strict_ivars/base_processor.rb:42 | the digit strings of different counter values differ |
| Guards.ContextAfterWalk | lib/strict_ivars/processor.rb:72-112 | after a visit, in either order, the context is the old one plus exactly the names the node guards for the code after it. Scope bodies, `if` arms, `when` clauses, `else` and `defined?(@x)` add nothing; `defined?` of a larger expression adds what that expression guards |
| Guards.ContextAfterWalkAll | lib/strict_ivars/processor.rb:72-112 | after a list of siblings the context is the old one plus what each sibling guards for the code after it |
| Guards.ScopeGuardsFirstReadAgain | lib/strict_ivars/processor.rb:90-100 | a read in a scope body that no earlier sibling in the body guarded is guarded, right after those siblings' annotations, even when the enclosing code already guarded the same name |
| Guards.IfKeepsOnlyConditionContext | lib/strict_ivars/processor.rb:30-35 | after an `if` the context holds what its condition established and nothing from either arm |
| Guards.WalkAllAppend | lib/strict_ivars/processor.rb:86 | visiting a concatenation of siblings is visiting the first part, then the second from where the first left off |
| Guards.Walk | lib/strict_ivars/processor.rb:72-112 | a visit only adds names to the context and never decreases the temporary counter |
| Guards.WalkEvalCall | lib/strict_ivars/base_processor.rb:45-59 | in the processor's order the call's whole wrapper comes before every annotation of its receiver, arguments and block |
| Guards.EvalWrapper | lib/strict_ivars/base_processor.rb:41-56 | four annotations with a receiver, two without; the last at the arguments' end offset, the one before it at their start offset |
| Guards.OrdersAgree | lib/strict_ivars/base_processor.rb:45-59 | moving the wrapper pieces around the parts they enclose pushes the same annotations and leaves the same context and counter; on a tree without an eval call it pushes the identical list |
| Guards.UntouchedEmitsNothing | lib/strict_ivars/processor.rb:72-87 | code with no instance-variable read outside `defined?` and no eval-family call with arguments is left unchanged |
| Emission.WalkOrdered | lib/strict_ivars/base_processor.rb:12-16 | in the corrected `WrapAround` order (see Findings), on well-formed spans, a visit pushes annotations in non-decreasing offset order, all inside the node's span |
| Emission.SortKeepsWalkOrder | lib/strict_ivars/base_processor.rb:12 | on well-formed spans the pushed list is sorted and the stable sort by offset returns it unchanged: in the `WrapAround` order always, in the processor's own order whenever the tree has no eval call with arguments |
| Emission.WalkWithin | lib/strict_ivars/base_processor.rb:15 | on nested spans, including modifier `if`, every annotation offset of a `WrapAround` visit lies inside the node's span |
| Emission.WalkStaysInside | lib/strict_ivars/base_processor.rb:15 | in either order, every annotation a nested node pushes lies between its start and end offsets, so no insertion raises |
| Emission.EvalOfIvarEmissions | lib/strict_ivars/base_processor.rb:51-59 | for `eval(@c)` the processor's order pushes the wrapper's `))` at offset 7 before the guard's opening at offset 5; the `WrapAround` order pushes all four in offset order |
| Emission.EvalOfIvarWellFormed | lib/strict_ivars/base_processor.rb:51-59 | the spans of `eval(@c)` are as a parser reports them, so the failure below is not caused by odd spans |
| Emission.EvalOfIvarAsWrittenIsMalformed | lib/strict_ivars/base_processor.rb:51-59 | for `eval(@c)` the processor's list is not sorted, and the text `Call` returns closes the wrapper inside the guard's conditional |
| Emission.EvalOfIvarCorrected | lib/strict_ivars/base_processor.rb:51-59 | for `eval(@c)` the `WrapAround` list is sorted and the guard sits wholly inside the wrapper |
| Examples.GuardedReadText | lib/strict_ivars/processor.rb:80-83 | a lone guarded read turns into its opening text, the read itself and its closing text, with the rest of the source unchanged |
| Examples.Basic | test/processor.test.rb:3-15 | on the test's own text, `def foo; @foo; end` becomes the guarded text of the test's expectation |
| Examples.RepeatedRead | test/processor.test.rb:61-75 | of two reads of one name only the first is guarded, and only when the name is not already in the context |
| Examples.ScopeIsolation | test/processor.test.rb:179-265 | a class, module, singleton class or block body guards its first read again and gives back the outer context |
| Examples.IfConditional | test/processor.test.rb:77-117 | the condition's read counts in both arms and afterwards; a read first made in an arm is guarded again in the other arm and after the `if` |
| Examples.CaseBranches | test/processor.test.rb:119-163 | the subject's read counts everywhere after it; a `when` condition's read counts only in its own clause |
| Examples.ShorthandInterpolation | lib/strict_ivars/processor.rb:58-69 | an unguarded `#@name` gets braces around its guard; one already in the context pushes nothing |
| Examples.ShorthandInterpolationText | test/processor.test.rb:267-279 | in any source, an unguarded `#@name` becomes `#{`, the guarded read and `}`, with the rest of the text kept |
| Examples.EscapedInterpolation | test/processor.test.rb:281-295 | `@name ||= "world"` followed by the escaped `"hello \#@name"` gets no annotation |
| Examples.DefinedWithNonIvar | test/processor.test.rb:33-45 | `return true if defined?(SomeConst)` gets no annotation |
| Examples.DefinedOfCallGuardsReceiver | lib/strict_ivars/processor.rb:48-55 | under `defined?` only a bare read is skipped: in `defined?(@x.foo)` the read is guarded and joins the context |
| Examples.DefinedIsSkipped | test/processor.test.rb:17-31 | the read under `defined?` is not guarded and the other read of the same name is |
| Examples.ModifierIfIsNestedOnly | test/processor.test.rb:47-59 | `body if @foo` guards the predicate's read; its spans nest but its children are visited out of source order |

## Left out

- Parsing with Prism is not modelled. `Call` takes the parse tree as a
  parameter, together with the character spans Prism reports.
- Node kinds other than those in `Syntax.Node` are a generic `Other` node
  whose children are visited in order, as `Prism::Visitor` does. This
  includes `unless`, `while`, `when`, `else`, statements, lambdas and
  assignments. A `when` clause is one node holding its conditions and its
  body.
- `SecureRandom.hex(8)` is modelled as a counter. `TempName` writes the
  counter in decimal. The model proves that different draws give
  different names; it does not model randomness.
- The runtime side is not part of this model: `__process_eval_args__`,
  `__eval_block_from_forwarding__`, `StrictIvars::NameError` and the
  require and eval hooks. The eval tests (test/eval.test.rb) exercise that
  runtime.
- Patch.SortByOffset: Ruby's `sort_by!` is not stable. The model uses a
  stable insertion sort. An unstable sort may swap annotations at the same
  offset, for example a guard's opening and an interpolation's `{`, even
  in a list that is already sorted. The model does not capture that.
- Emission.SortKeepsWalkOrder: it proves that a stable sort leaves the
  pushed list alone. It says nothing about what an unstable sort does to
  entries at the same offset. For the processor's own order it is proved
  only on trees without an eval call with arguments. On `eval(@c)` the
  processor's list is not sorted (see Findings).
- Emission.WalkOrdered is about the `WrapAround` order. It reaches the
  processor's own order only through `Guards.OrdersAgree`, on trees
  without an eval call. It also requires `WellFormed`. A modifier `if`,
  `unless` or `while` visits its predicate before its body, which is
  written first, so such a tree is only `Nested`. For those trees only the
  in-range guarantee (`Emission.WalkStaysInside`) is proved, not the order.
- Heredoc bodies lie outside their node's span, so a tree with a heredoc
  is neither `WellFormed` nor `Nested`. `StrictIvars.Call` still states
  exactly when it succeeds and what it returns.
- The Ruby `Set` becomes a Dafny `set<string>`. `Array#push` of several
  pairs becomes appending a sequence.
- The open-method-definition test (test/processor.test.rb:165-177) depends
  on Prism's error recovery, which is not part of this model.

## Findings

| source | as written | input that shows it | evidently intended | confidence | as-written member | corrected member |
|---|---|---|---|---|---|---|
| lib/strict_ivars/base_processor.rb:45-59 | `visit_call_node` pushes its wrapper annotations, including the closing `))` at the arguments' end, before `super` visits the arguments. A guarded read that ends where the arguments end therefore gets its closing text pushed after the wrapper's `))` at the same offset. After a stable sort and the reverse insertion, the wrapper closes inside the guard's `defined?(@c) ? @c` conditional. | `eval(@c)` (likewise `obj.instance_eval(@c)` or `@obj.instance_eval(x)`, where the receiver ends with a read) | open the wrapper, visit the child, then close the wrapper, as `visit_embedded_variable_node` does with its braces (processor.rb:66-68). The annotations then come out in offset order and the guard stays inside the wrapper. This is the `WrapAround` order; `Emission.WalkOrdered` proves it sorted on every well-formed tree. The processor in this model keeps the order as written, so `StrictIvars.Call` returns the malformed text on this input | not executed; with Ruby's unstable `sort_by!` the outcome depends on the tie order | Emission.EvalOfIvarAsWrittenIsMalformed | Emission.EvalOfIvarCorrected |
