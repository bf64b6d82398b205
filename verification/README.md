# A verified model of a JSON Schema compiler

The compiler turns a JSON Schema document into Go types and validators under one rule: no
rewrite may change the set of accepted values. This project models the parts that carry that
rule and proves it for them.

| file | what it models |
|---|---|
| Basics, Graphs, Scc, Frontend | Tarjan's algorithm with its index, low links and stack; which recursive components are guarded |
| GoTypes, GoWalk, Checks | pointer insertion, the walk over the cyclic type graph, and which generated types get a method |
| Json, Ir | JSON values, schema expressions and what they accept |
| Prove, ProveExact | equality, inclusion and disjointness of expressions, and where these are decided |
| NormLaws, NormRules, Passes, NormalForm, Norm | the normalizer: its laws, one pass as a function, the normal form it leaves, and the loops that run it |
| Schemas | kind summaries through references, and inhabitation |
| Plans, Interp | compilation plans and their reference interpreter |
| NameSets, CaseTables, NodeTree, Fusion | the compiled validator: name lists and bits, hashed cases, nodes, fusion |
| Agreement, Validator | the compiled validator agrees with the interpreter and runs as loops |
| Reasons, Origins, Reporter | what there is to say against a value, which check says it, and the walk that yields it |
| TagFacts, Collected, Discriminators, Inferred, Unions | when a lookup may replace a match count |
| ShapeMerge | intersecting sibling shapes |
| Capability | levels rolled up along references |

Values are trees; objects are maps, so a member occurs once; numbers are exact. A regular
expression is an oracle: what it matches in truth where a schema's meaning is defined, and an
engine that may not know where the code consults one. Meaning is a function of an environment
that says what references, patterns and formats accept, and equivalence holds in all of them.

A rewriting pass is a method proved to keep the meaning. The reference interpreter and the
compiled nodes are functions, related by `Agreement.PlanAgrees`; the compiled nodes are also
run by methods with the loops, bits, counters and early exits of the code, each proved to
return what the function says. Where both a method and a function describe one step, the
function is the specification.

Some claims of the code are false as they stand. Each is stated with an input that shows it,
and with the condition under which it holds:

- `Checks.MethodsCarried`, `Checks.PointerGetsMethod`: a type Go lets carry no method is kept
  from getting one only if it has a check of its own (gogen/validate.go:337-344, 349).
- `Reporter.RequiredReportIff`: a required list that names a property twice is reported on
  objects that satisfy it (internal/nodetree/report.go:104-107).
- `TagFacts.ClashExact`: two numeric domains that conflict are read as an empty schema even
  when other kinds are admitted (internal/planner/planner.go:209-215).
- `Unions.PresenceMisread`, `Unions.PresenceExactIff`: a negated required list is recognized
  without looking at the kinds beside it (internal/planner/dispatch.go:342-354). The broken
  claim is the planner's about whatever union it is handed; in normalized input such a list has
  been dropped with its guard, so it is kept away from it.
- `NormalForm.NumbersLostShown`, `NormalForm.KindsLostIff`: a pass that folds clashing numeric
  domains may leave a conjunction without a shared kind, which only the next one finds empty
  (internal/norm/flatten.go:24-45).
- `Schemas.EscapeShown`, `Schemas.EscapeExact`: patternProperties may let in what
  additionalProperties: false seems to exclude (internal/frontend/inhabit.go:81-86).
- `Agreement.NegatedFormatDiffers`, `Agreement.NegatedPatternDiffers`,
  `Agreement.NegatedPresenceDiffers`, `Agreement.NegationAgreesIff`: the compiled validator and
  the interpreter part where something unenforced lies under a negation and is accepted over
  (internal/planterp/validation.go:336).

What a caller can check on a document: `Plans.Enforced` with `Settled`, that no format, no
pattern outside the decided ones and no presence dispatch open to values other than objects
lies beneath a negation, in the plan or in a definition a negation refers to; with `Clean`,
that there is none at all; and `uniqueRequired`, that no required list has a repetition.
`Plans.Reliable` says the first of every definition. `Plans.WellFormed` and `Plans.Shaped` are
what the planner promises of its plans: references resolve and do not return to themselves at one instance, an
assertion carries no further check, a declared name occurs once, numeric domains guard numbers,
divisors are not zero, and a match count is not bounded below zero. The last matters: a
negative maximum would be read differently by the early exit and by the full count.

## Model

| member | source | states |
|---|---|---|
| Graphs.ClosedReach | internal/scc/scc.go:31-45 | a set no edge leaves holds everything reachable from it, which is how every fixed point below is shown to be large enough |
| Scc.Tarjan.Push | internal/scc/scc.go:57-64 | a fresh node gets the next index as its own low link and goes on the stack, keeping the search invariant |
| Scc.Tarjan.StrongConnect | internal/scc/scc.go:57-92 | visiting a white node leaves it indexed, keeps every earlier invariant, and closes a component exactly when nothing older is reachable from it |
| Scc.Tarjan.Follow | internal/scc/scc.go:66-76 | after an edge has been followed its target is indexed and the low link covers what the target reaches |
| Scc.Tarjan.Finish | internal/scc/scc.go:77-91 | the node pops its component when its low link is its own index, and otherwise leaves the stack as it is |
| Scc.Tarjan.Pop | internal/scc/scc.go:79-89 | the popped nodes are the mutually reachable ones above and including the root |
| Scc.EmittedIsSccs | internal/scc/scc.go:9-29 | when no node is left open, what was emitted is the list of strongly connected components |
| Scc.EmittedTogether | internal/scc/scc.go:9-29 | two nodes were emitted together exactly when each reaches the other |
| Scc.EmittedOrder | internal/scc/scc.go:9-29 | an edge out of a component leads to one emitted no later |
| Scc.EmittedCovers | internal/scc/scc.go:16-29 | what is emitted is what the given nodes reach |
| Scc.Components | internal/scc/scc.go:16-29 | the components are non-empty, disjoint, free of duplicates, cover precisely the nodes reachable from the roots, hold two nodes together iff mutually reachable, and come out in reverse topological order |
| Scc.Recursive | internal/scc/scc.go:34-45 | true for more than one node or a self-loop |
| Scc.RecursiveIffOnCycle | internal/scc/scc.go:31-45 | for a component of the graph that answer is the same as lying on a cycle |
| Frontend.Registry.Classify | internal/frontend/scc.go:37-61 | a component is Guarded iff every cycle through one of its nodes takes an edge that descends into the instance |
| Frontend.Registry.AnalyzeSccs | internal/frontend/scc.go:11-23 | a node has an index iff it is reachable and on a cycle, and the index leads to its own component with its class |
| Frontend.StaticCycleIff | internal/frontend/scc.go:40-61 | dropping descent edges from a component leaves a cycle iff some cycle of the component never descends |
| Frontend.CycleInside | internal/frontend/scc.go:40-61 | a cycle that meets a component stays inside it, so that classifying it alone loses no cycle |
| GoTypes.Backend.MarkRecursive | gogen/recursion.go:17-30 | exactly the types on a cycle of inline storage are marked, besides those marked before |
| GoTypes.Backend.PointerizeAll | gogen/recursion.go:31-36 | every declared type is rewritten through its slots, and no marking changes |
| GoTypes.Backend.BreakCycles | gogen/recursion.go:17-36 | afterwards every declared type has a finite layout by the rule of Go, and none stores itself inline, directly or through others; exactly the types on an original inline cycle are newly marked, none of which had a layout before; every type is rewritten slot by slot |
| GoTypes.SlotInlineRefs | gogen/recursion.go:68-88 | the inline references of a rewritten type are those of the original without the recursive ones |
| GoTypes.SlotOnlyAddsPointers | gogen/recursion.go:68-88 | a rewritten type differs from the original by pointers alone |
| GoTypes.SlotTwice | gogen/recursion.go:68-88 | rewriting again changes nothing: a slot already behind a pointer stays |
| GoTypes.NoInlineCycle | gogen/recursion.go:31-36 | pointing at every type on an inline cycle leaves none |
| GoTypes.InlineAfter | gogen/walk.go:175-323 | an inline edge of the rewritten graph was one of the original and does not lead to a recursive type |
| GoTypes.StorableIff | gogen/recursion.go:17-36 | by the rule that a struct holds its fields, a tuple its elements, a presence and an enum their element, while a pointer, slice, map or variant is one word, a type has a finite layout exactly when no inline cycle can be reached from it |
| GoTypes.SlotEdges | gogen/recursion.go:38-88 | walking a rewritten type meets the same slots in the same order, each with its type rewritten and nothing besides |
| GoWalk.ChildrenHeld | gogen/walk.go:175-323 | the slots the rewrite goes through are the children the walk delivers, in the same order |
| GoWalk.Walker.Fold | gogen/walk.go:123-160 | for every visitor, whatever it makes of what it was delivered before: the walk ends on every cyclic graph, delivers a type first, saying whether it was entered before, ends at the first delivery the visitor stops at and at no other, and enters nothing that is not reachable; uncut, it enters all that is |
| GoWalk.Walker.FoldChildren | gogen/walk.go:148-160 | uncut, a walk of the children enters what they mention and what that mentions; a stop in one of them ends it |
| GoWalk.Reachable | gogen/walk.go:117-127 | a full walk enters the least set that holds what the start mentions and is closed under mentioning |
| GoWalk.ChildSmaller | gogen/walk.go:175-323 | short of entering a declared type, a child is smaller than what holds it |
| Checks.CollectCalls | gogen/validate.go:304-316 | collects every declared type called at any depth |
| Checks.Prune | gogen/validate.go:284-302 | keeps every check, in order, keeps exactly the calls to types that get a method, leaves no empty branch, and says whether anything is left |
| Checks.Grow | gogen/validate.go:346-360 | the fixed point is closed under calling and holds no more than is needed |
| Checks.Validators | gogen/validate.go:318-367 | a type gets a method iff it reaches, through calls, a check some type can carry; every check stays and every call left leads to a type with a method; an unblocked type gets one iff its pruned tree is not empty |
| Checks.MethodsCarried | gogen/validate.go:337-356 | every type that gets a method may carry one exactly when no uncarriable type without a check of its own calls a type from which calls lead to one whose own checks a method carries |
| Checks.PointerGetsMethod | gogen/validate.go:348-358 | the case that fails: a pointer type calling a checked type is given a method Go does not allow |
| Basics.NoDuplicatesMeans | internal/nodetree/nodes.go:283-302 | a list has no repetition exactly when it has as many elements as different ones |
| Json.IntegerMeans | internal/planterp/value.go:103-111 | a number is an integer exactly when some integer equals it |
| Json.MultipleMeans | internal/nodetree/nodes.go:204-211 | a number is a multiple exactly when it is an integer many times a divisor other than zero |
| Json.DomainMeans | internal/nodetree/nodes.go:213-252 | what each numeric domain admits: all numbers, those equal to an integer, those equal to none |
| Json.KindMeans | internal/nodetree/nodetree.go:131-160 | each kind is the kind of the values of one form and of no others |
| Ir.PureKindsExact | internal/ir/kinds.go:66-90 | an expression recognized as a pure kind restriction accepts exactly those kinds |
| Ir.KindsOfSound | internal/ir/kinds.go:10-99 | the inferred kinds cover every kind accepted, the complement of a pure restriction included |
| Prove.ExprEqualSat | internal/norm/normalize.go:157-201 | expressions taken to be equal accept the same values |
| Prove.AsKindsExact | internal/norm/subsume.go:77-94 | an expression read as a kind restriction is one |
| Prove.SubsumesSound | internal/norm/subsume.go:25-157 | what is proved to be included is included |
| Prove.DisjointSound | internal/norm/disjoint.go:12-57 | what is proved to be disjoint shares no value |
| ProveExact.SubsumesKindsIff | internal/norm/subsume.go:25-111 | between kind restrictions, Any and Never included, inclusion is proved exactly when it holds |
| ProveExact.SubsumesBoundsIff | internal/norm/subsume.go:113-157 | between bounds of one sort under one guard that covers them, inclusion is proved exactly when it holds |
| ProveExact.SubsumesParts | internal/norm/subsume.go:36-75 | inclusion is found between a conjunction and each of its operands, between each operand of a union and the union, and in a conjunction for what is included in each operand |
| ProveExact.KindsTight | internal/ir/kinds.go:10-99 | of literals, restrictions to whole kinds, their negations and unions of these, every inferred kind is the kind of an accepted value |
| ProveExact.DisjointIff | internal/norm/disjoint.go:12-57 | between such expressions disjointness is proved exactly when they share no value |
| NormLaws.FlattenAllEquiv | internal/norm/flatten.go:157-165 | flattening nested conjunctions keeps the meaning |
| NormLaws.FlattenAnyOfEquiv | internal/norm/flatten.go:167-177 | flattening nested unions keeps the meaning |
| NormLaws.NoCommonKind | internal/norm/flatten.go:24-34 | operands without a common kind accept nothing together |
| NormRules.NormalizeNotEquiv | internal/norm/normalize.go:87-101 | the rules for negation keep the meaning |
| NormRules.DropVacuousEquiv | internal/norm/flatten.go:242-260 | a predicate that guards no remaining kind may go |
| NormRules.FoldEquiv | internal/norm/flatten.go:179-240 | intersecting all kind restrictions into one keeps the meaning, and an empty intersection is Never |
| NormRules.DuplicateEquiv | internal/norm/flatten.go:113-124 | a value listed twice under exactly-one cannot be the one |
| NormRules.SubsumedEquiv | internal/norm/flatten.go:136-150 | of two operands, one included in the other, exactly one holds iff the larger does and the smaller does not |
| NormRules.DisjointEquiv | internal/norm/flatten.go:126-134 | exactly one of pairwise disjoint operands is any of them |
| NormRules.DistributeEquiv | internal/norm/distribute.go:14-67 | pushing the other operands into every branch of one union keeps the meaning |
| NormRules.ContainsEquiv | internal/norm/normalize.go:139-155 | normalizing the element schema of contains keeps the counts |
| NormRules.ObjectEquiv | internal/norm/normalize.go:103-137 | normalizing inside an object shape keeps what it accepts, each additionalProperties read within its own shape |
| NormRules.ArrayEquiv | internal/norm/normalize.go:103-137 | normalizing inside an array shape keeps what it accepts |
| Norm.DropAny | internal/norm/flatten.go:279-288 | removes Any and nothing else |
| Norm.FilterNotNever | internal/norm/flatten.go:290-299 | removes Never and nothing else |
| Norm.DropGuardVacuousPredicates | internal/norm/flatten.go:242-260 | keeps precisely the operands that are not guarded away, and the meaning |
| Norm.DedupExprs | internal/norm/flatten.go:262-277 | keeps the first of equal operands and their order, and the meaning under both connectives; no two equal operands are left |
| Norm.RemoveSubsumedAll | internal/norm/flatten.go:301-334 | at every step each dropped operand follows from a live one; the result means the same and of no two operands left is one proved to include the other |
| Norm.RemoveSubsumedAnyOf | internal/norm/flatten.go:336-369 | at every step each dropped operand implies a live one; the result means the same and of no two operands left is one proved to include the other |
| Norm.ExtractDuplicate | internal/norm/flatten.go:371-392 | finds an operand that occurs twice iff there is one, and separates every copy of it |
| Norm.FoldKindsAll | internal/norm/flatten.go:179-221 | merges all kind restrictions, conflicting numeric domains included, keeps the rest in order, or proves the conjunction empty |
| Norm.JustifiedEquiv | internal/norm/flatten.go:301-369 | a list whose dropped operands are all accounted for by live ones means what the live ones mean |
| Norm.SimplifyAll | internal/norm/flatten.go:24-72 | the rules for one conjunction, in order, keep the meaning, do not add weight and give what the pass as a function gives |
| Norm.State.Spend | internal/norm/normalize.go:50-60 | a distribution costs one unit and is refused at none |
| Norm.State.Normalize | internal/norm/normalize.go:62-85 | ends by (remaining budget, weight), keeps the meaning, does not add weight unless budget was spent, and leaves the expression and the budget the pass as a function gives, whose normal form is proved below |
| Norm.State.NormalizeAll | internal/norm/flatten.go:10-72 | the same for conjunctions, the one rule that duplicates operands included |
| Norm.State.NormalizeAnyOf | internal/norm/flatten.go:74-95 | the same for unions |
| Norm.State.NormalizeExactlyOne | internal/norm/flatten.go:97-155 | the same for exactly-one, whose rewrites turn it into unions, negations and conjunctions |
| Norm.State.NormalizeShape | internal/norm/normalize.go:103-137 | the same for shapes |
| Norm.State.NormalizePredicate | internal/norm/normalize.go:139-155 | the same for the predicates that carry a schema |
| Norm.State.DistributeAll | internal/norm/distribute.go:10-67 | distributes exactly when there is one exactly-one group or, there being none, one plain union, with siblings to push into it and a unit to spend; the meaning is kept |
| Norm.State.DistributeBranches | internal/norm/distribute.go:69-86 | every value satisfies as many branches afterwards as before |
| Norm.Normalize | internal/norm/normalize.go:31-47 | for every expression, budget and environment with honest kind summaries the result accepts the same values, its summaries are honest, no more distributions are made than budgeted, and it is in normal form; the last pass changed nothing unless each of 64 changed something |
| NormalForm.PassNormal | internal/norm/flatten.go:10-155 | one pass leaves, at every depth and whatever the budget: conjunctions of two operands or more, none of them a conjunction or trivial, irredundant, with at most one kind restriction, which every predicate minds; unions without empty members or bare unions in them; exactly-one groups that are not pairwise disjoint, hold nothing twice and no pair of which one includes the other; and negations of nothing trivial or negated |
| NormalForm.PassContradiction | internal/norm/flatten.go:24-34 | constraints that share no kind become Never in one pass, whatever the budget |
| NormalForm.KindsLostIff | internal/norm/flatten.go:179-240 | folding takes away the last shared kind exactly where that is the numbers and one restriction leaves integers only, another all but those |
| NormalForm.NumbersLostShown | internal/norm/flatten.go:24-72 | an input for which one pass leaves a conjunction without a shared kind, which the next pass finds empty |
| Norm.RewrittenEnds | internal/norm/normalize.go:36-47 | any number of passes ends in one that changed nothing or consists of passes that each changed something; after one at least, the expression is in normal form |
| NameSets.NewNameSet | internal/nodetree/nameset.go:9-29 | builds the scanned or hashed name list; the first of two equal names wins |
| NameSets.Lookup | internal/nodetree/nameset.go:31-46 | scanned or hashed, the answer is the first position of the name |
| NameSets.SetHas | internal/nodetree/nameset.go:62-75 | setting a bit marks that position and no other, inline or spilled |
| NameSets.CoversIff | internal/nodetree/nameset.go:77-87 | word-wise covering is inclusion of the marked positions, for any number of words |
| NameSets.MaskHas | internal/nodetree/nameset.go:89-99 | a mask has the bits of the listed names and no others |
| NameSets.MaskWants | internal/nodetree/nameset.go:77-99 | covering a list's own mask means having every listed name |
| NameSets.PresenceOf | internal/nodetree/nameset.go:101-117 | one walk over the members, in any order, marks exactly the listed names the object has |
| NameSets.CoversMarks | internal/nodetree/nameset.go:77-117 | comparing bits after such a walk is comparing the names |
| CaseTables.IndexCases | internal/nodetree/literal.go:82-114 | tables are built unless a case cannot be keyed or repeats a value |
| CaseTables.IndexSound | internal/nodetree/literal.go:56-114 | for case lists of any length the tables answer every selector as the ordered scan does |
| CaseTables.NewCaseTable | internal/nodetree/literal.go:66-80 | a short or unkeyable list is left to the scan |
| CaseTables.SelectCase | internal/nodetree/literal.go:126-164 | hashed or scanned, the selected branch is the first whose literal equals the selector |
| NodeTree.LoneStructure | internal/nodetree/fuse.go:91-105 | the only guarded structure of its kind, if there is just one |
| NodeTree.FindLoneStructure | internal/nodetree/fuse.go:91-105 | the loop finds it and gives up at a second one |
| NodeTree.NewPlanFusion | internal/nodetree/fuse.go:30-79 | decides, predicate by predicate, what is skipped and which bounds are folded |
| Fusion.FusionSound | internal/nodetree/fuse.go:20-137 | skipping restated required lists and folding count bounds gives the verdict of checking every predicate separately |
| Fusion.BoundsSplit | internal/nodetree/structure.go:40-157 | a structure with bounds is the structure and the bounds |
| Fusion.RestatedHolds | internal/nodetree/fuse.go:107-137 | a required list is implied by a structure over the same kinds that requires every name on it |
| Fusion.FusionFacts | internal/nodetree/fuse.go:36-79 | each skipped predicate was absorbed and each folded bound came from one |
| Agreement.PlanAgrees | internal/nodetree/nodetree.go:39-129 | on every well-formed document the reference interpreter gives a verdict, and the compiled plan accepts exactly what it accepts: always where nothing goes unenforced beneath a negation, formats and undecided patterns elsewhere included, and on any document whenever nothing was left unenforced on the way; of a clean plan nothing ever is |
| Agreement.PredicatesAgree | internal/planterp/validation.go:15-38 | the guarded predicates agree one by one, up to the first rejection, approximations made before it included |
| Agreement.ObjectAgrees | internal/planterp/object.go:38-132 | checking declared properties, pattern rules and the rest separately is the compiled single walk |
| Agreement.ArrayAgrees | internal/planterp/structure.go:69-99 | prefix, rest and a forbidden rest agree index by index |
| Agreement.PatternsAgree | internal/planterp/object.go:105-132 | pattern rules agree, a rule that cannot be decided claiming the name without constraining it |
| Agreement.ReferenceAgrees | internal/planterp/object.go:134-153 | a reference that does not come back at one instance is followed by both |
| Agreement.ContainsAgrees | internal/planterp/validation.go:293-321 | matching elements are counted alike |
| Agreement.PropertyNamesAgree | internal/planterp/validation.go:354-369 | names are checked as strings alike |
| Agreement.DependentAgrees | internal/nodetree/nodes.go:377-393 | positions resolved at compile time mean the names they came from |
| Agreement.RequiredAgrees | internal/nodetree/nodes.go:328-334 | the bit mask of a required list means the list |
| Agreement.SelectionAgrees | internal/planterp/dispatch.go:35-149 | kind and presence dispatch select the same branch, and both let a value that is not an object pass a presence dispatch |
| Agreement.LiteralAgrees | internal/planterp/dispatch.go:60-112 | literal and property dispatch select the same branch |
| Agreement.MatchCountAgrees | internal/planterp/dispatch.go:151-176 | counting all branches and stopping early give one verdict |
| Agreement.NegationReadings | internal/planterp/validation.go:323-340 | the two readings of a negation: the interpreter does not invert an acceptance reached over something unenforced, the compiled negation inverts regardless |
| Agreement.NegationAgreesIff | internal/planterp/validation.go:329-340 | the negation of a settled plan gets one verdict from both unless the plan accepts over something unenforced, and then never |
| Agreement.NegatedFormatDiffers | internal/planterp/validation.go:323-340 | every format under a negation parts the two on every value |
| Agreement.NegatedPatternDiffers | internal/planterp/validation.go:323-340 | so does a pattern the engine cannot decide, on the string it cannot decide it for |
| Agreement.NegatedPresenceDiffers | internal/planterp/dispatch.go:126-132 | so does a presence dispatch, on every value but an object, in documents without formats and patterns |
| Validator.Ok | internal/nodetree/nodes.go:13-65 | evaluating a node returns whether it accepts the value, references read at run time included |
| Validator.OkUnique | internal/nodetree/nodes.go:283-302 | no two elements are equal |
| Validator.OkRequired | internal/nodetree/nodes.go:328-334 | one bit comparison decides a required list |
| Validator.OkDependent | internal/nodetree/nodes.go:377-393 | every trigger that is present has all it needs |
| Validator.OkNames | internal/nodetree/nodes.go:405-422 | every member name is accepted, whatever the order of members |
| Validator.OkContains | internal/nodetree/nodes.go:424-445 | the matching elements are within bounds |
| Validator.OkObject | internal/nodetree/structure.go:37-105 | one pass over the members, stopping early, with bits and a count, decides the whole structure |
| Validator.OkMember | internal/nodetree/structure.go:50-93 | a member goes to its field or, undeclared, to every rule that matches it or to the rest |
| Validator.OkArray | internal/nodetree/structure.go:112-157 | one pass over the elements decides the whole structure |
| Validator.OkTable | internal/nodetree/dispatch.go:23-53 | the looked-up branch decides; a value that is not an object, or lacks the tag, is rejected |
| Validator.OkSelected | internal/nodetree/dispatch.go:9-71 | the kind, or presence of a property, selects the branch that decides |
| Validator.OkCount | internal/nodetree/dispatch.go:94-110 | giving up once too many branches accept gives the verdict of the full count |
| Validator.CompiledFits | internal/nodetree/compile.go:10-250 | compilation yields tables that belong to their lists, bits that fit their names and references that resolve |
| Reasons.FaultsMean | internal/nodetree/errors.go:127-154 | what there is to say against a value is something whenever it is rejected, on lists without repetition only then, and points inside it |
| Origins.FaultsIff | internal/nodetree/report.go:12-401 | the reasons against a value are exactly what the checks reached from its own have to say at the places they are reached at |
| Origins.KeywordReported | internal/nodetree/report.go:48-195 | a keyword check that is reached and rejects is among them, by its keyword and its path |
| Origins.AbsentReported | internal/nodetree/report.go:196-269 | so is every required field an object structure that is reached does not find |
| Origins.KeywordsSpelled | internal/nodetree/report.go:48-195 | the keyword each compiled predicate reports by |
| Reporter.Consumer.Yield | internal/nodetree/errors.go:116-125 | an error may be yielded only to a consumer that has not stopped |
| Reporter.Report | internal/nodetree/report.go:12-401 | no node yields after the consumer stopped; until then it yields every reason there is, as often as there is one, and no other; a rejected value has one, on lists without repetition only a rejected one does, and each points at a value inside the one checked |
| Reporter.ReportLeaf | internal/nodetree/errors.go:137-143 | a keyword-shaped node yields one error, of its keyword, iff it rejects |
| Reporter.ReportAll | internal/nodetree/report.go:12-19 | unless told to stop, a conjunction yields the reasons of every member |
| Reporter.ReportRequired | internal/nodetree/report.go:99-113 | unless told to stop, one error per position not marked and no other |
| Reporter.ReportObject | internal/nodetree/report.go:196-269 | unless told to stop, the reasons of every member at its own path, one for each absent required field and one for each folded bound that fails |
| Reporter.ReportArray | internal/nodetree/report.go:271-314 | unless told to stop, the reasons of every element at its own path, one for each element a missing rest forbids and one for each folded bound that fails |
| Reporter.ReportTable | internal/nodetree/report.go:343-372 | the reasons of the selected branch; a tag no branch has is reported at the tag itself |
| Reporter.RequiredReportIff | internal/nodetree/report.go:99-113 | reporting a required list agrees with accepting it, for every object, exactly when it names nothing twice |
| Reporter.Compiled.IsValid | internal/nodetree/nodetree.go:52-55 | the fast answer is what the compiled tree accepts, and the reference verdict wherever nothing goes unenforced beneath a negation or nothing was left unenforced |
| Reporter.Compiled.IterErrors | internal/nodetree/errors.go:145-154 | to a consumer that has not stopped, every check reached that rejects has had its say at its own path, each keyword check by its keyword, and nothing else has been said; some error whenever the fast answer is no and, without repeated required names, none whenever it is yes; the same against the reference verdict where nothing goes unenforced beneath a negation |
| Reporter.Compiled.Validate | internal/nodetree/errors.go:156-168 | one of those errors, inside the instance, whenever the fast answer is no and, without repeated required names, none whenever it is yes; the same against the reference verdict |
| ShapeMerge.OwnMeans | internal/planner/patternfields.go:10-26 | an object shape is what it says of each member |
| ShapeMerge.ConstraintsHold | internal/planner/patternfields.go:27-62 | what one shape is taken to say of a name, undecided patterns left out, never exceeds what it says |
| ShapeMerge.ConstraintsExact | internal/planner/patternfields.go:27-62 | where every pattern is decided it is all the shape says |
| ShapeMerge.Builder.ConstraintsFor | internal/planner/patternfields.go:27-62 | the declared schema and every matching pattern's, or else the shape's own additionalProperties; an undecided pattern is recorded as a gap |
| ShapeMerge.Builder.MergePatternRules | internal/planner/shapemerge.go:84-121 | each rule is carried over once, conjoined with the other siblings' additionalProperties as far as no pattern of theirs interferes; interference is recorded |
| ShapeMerge.Builder.MergeObjectShapes | internal/planner/shapemerge.go:38-82 | every declared name once, in order; a gap is recorded iff a pattern is undecided or two siblings' patterns interfere; the result accepts every object that all siblings, object shapes or not, accept and, with no gap and no unevaluatedProperties recorded, no other |
| ShapeMerge.NeverRejectsAt | internal/planner/shapemerge.go:38-121 | a member every sibling accepts is accepted |
| ShapeMerge.ExactAt | internal/planner/shapemerge.go:38-121 | without a gap a member accepted by the merged shape is accepted by every sibling |
| ShapeMerge.MergeMeans | internal/planner/shapemerge.go:38-121 | the merged shape accepts whatever all siblings accept and, without a gap, exactly the objects each member of which every sibling lets in |
| ShapeMerge.MergeArrayShapes | internal/planner/shapemerge.go:123-174 | one constraint per tuple index up to the widest prefix, and one for the rest; the result accepts every array that all siblings accept and, with no unevaluatedItems recorded, no other |
| ShapeMerge.MergeArraysMeans | internal/planner/shapemerge.go:131-174 | the merged array shape accepts whatever all siblings accept, and exactly the arrays each element of which every sibling lets in |
| ShapeMerge.IntersectExprs | internal/planner/shapemerge.go:196-207 | the conjunction of the operands: the one there is, or else in normal form |
| TagFacts.FlattenHolds | internal/planner/planner.go:195-246 | flattening a conjunction collects nothing an accepted value need not satisfy |
| Collected.CollectedIff | internal/planner/planner.go:195-246 | what is collected is just what is within the conjunction, through nested conjunctions and annotations |
| Collected.LeavesIff | internal/planner/planner.go:195-246 | a literal is collected iff there is one within, and is one of these; emptiness iff something empty is within or numeric domains clash |
| Collected.ExtractLiteralIff | internal/planner/dispatch.go:116-130 | a bare literal is recognized iff nothing but literals and kind restrictions is within, and a literal is |
| TagFacts.LiteralValuesHold | internal/planner/discriminator.go:98-122 | an accepted value is among the literals read off a const or enum |
| Collected.LiteralValuesIff | internal/planner/discriminator.go:98-122 | values are read off iff the expression is a bare const or one union of literals, and are the literals there |
| TagFacts.AndHolds | internal/planner/tagfacts.go:33-50 | facts of two conjuncts combine |
| TagFacts.Or | internal/planner/tagfacts.go:52-81 | a union is empty iff all its alternatives are; else it proves a presence or a pinning iff each live alternative does, with exactly the values of these |
| TagFacts.OwnFactsHold | internal/planner/tagfacts.go:87-91 | presence and values proved within one conjunction hold of every accepted object |
| Collected.OwnFactsIff | internal/planner/tagfacts.go:83-91 | a presence is claimed iff something within requires it, a pinning iff something within declares the property with literals, and the values are those every such declaration leaves |
| TagFacts.Derive | internal/planner/tagfacts.go:83-126 | through conjunctions, reference cycles and nested unions every fact holds of all that is accepted, and no less is claimed than the conjunction itself shows or all live alternatives of a union in it show by theirs; the targets looked through are shared as the code shares them |
| TagFacts.ProvesClaims | internal/planner/tagfacts.go:83-126 | whatever has been looked through before, what the conjunction shows is claimed, and what every live alternative of each union in it shows |
| TagFacts.ProvesReference | internal/planner/tagfacts.go:92-105 | so is what the first reference that can be followed leads to |
| TagFacts.ClashExact | internal/planner/planner.go:204-216 | any list of kind restrictions is read as empty iff two numeric domains among it conflict, rightly iff they leave no kind but numbers |
| Discriminators.ValueSet.Add | internal/planner/valueset.go:20-38 | a value is added iff no equal one is there |
| Discriminators.ComponentName | internal/planner/discriminator.go:201-207 | what follows the last slash |
| Discriminators.RefMatchesIff | internal/planner/discriminator.go:175-207 | a mapping value fits a target iff it is the target, with or without a number sign, or the last component of a path to it; an empty one also fits a target that is no path |
| Discriminators.MapValues | internal/planner/discriminator.go:37-55 | each branch gets exactly the values mapped to it, in order, and a mapping is refused iff one of its entries fits no branch |
| Discriminators.AddCases | internal/planner/discriminator.go:88-93 | each value becomes a case of its branch, in order; refused iff a value already selects one, and then for the first |
| Discriminators.DeclaredDispatchCases | internal/planner/discriminator.go:13-96 | a dispatch iff the property is named, every mapping entry fits a branch and every branch is inhabited, requires the property and has values no other has; asserted iff some branch has mapped values its own facts do not vouch for, which then do not pin it to them; declared, the cases separate the branches; each refusal is for the first branch it is true of |
| Discriminators.DispatchExact | internal/planner/discriminator.go:21-24 | where cases separate the branches, on every object exactly one accepts iff some accepts iff the one the tag selects accepts |
| Discriminators.ObjectDispatchExact | internal/planner/discriminator.go:21-24 | branches whose kinds admit objects only are told apart by the tag for every value: one, some and the selected branch accept alike |
| Discriminators.DispatchExactIff | internal/planterp/dispatch.go:99-106 | over all values the selected branch decides the union exactly when the union accepts nothing but objects |
| Inferred.FlattenThroughRefs | internal/planner/dispatch.go:202-241 | shapes and required lists gathered through reference cycles hold of every accepted object, and are all there are to gather |
| Inferred.GathersAll | internal/planner/dispatch.go:202-241 | what is gathered is the object structure of the expression and of every schema its references lead to, in any number of steps, and nothing else |
| Inferred.RequiredConstProperty | internal/planner/dispatch.go:255-281 | finds the first required property pinned to one literal, iff there is one |
| Inferred.DiscriminatorProperty | internal/planner/dispatch.go:243-253 | the property and literal found are in every object the branch accepts |
| Inferred.PropertyDispatchCases | internal/planner/dispatch.go:283-305 | a tag is inferred iff every branch pins one and the same property, each to a value of its own; it has one case per branch, in order, and separates the branches |
| Unions.LiteralCases | internal/planner/dispatch.go:132-145 | cases exist iff every branch is a bare literal and no value repeats |
| Unions.LiteralDispatchExact | internal/planner/dispatch.go:132-165 | then one, some and the selected branch accept alike, for every value |
| Unions.KindCases | internal/planner/dispatch.go:180-200 | each kind some branch can accept selects such a branch |
| Unions.KindDispatchExact | internal/planner/dispatch.go:167-200 | for branches of pairwise disjoint kinds one, some and the selected branch accept alike |
| Unions.DetectPresence | internal/planner/dispatch.go:391-411 | recognizes the absent and the present branch in either order |
| Unions.PresenceDispatchExact | internal/planner/dispatch.go:330-423 | on objects presence selects the branch that decides, negations dropped, provided the negated schema does not exclude objects |
| Unions.PresenceExactIff | internal/planner/dispatch.go:330-423 | over all objects the lookup means the union exactly when the absent branch does not mislead by its kinds or the present one accepts every object with the property |
| Unions.PresenceMisread | internal/planner/dispatch.go:333-355 | a recognized pair and an object that the union accepts and the lookup rejects |
| Unions.WithoutSame | internal/planner/dispatch.go:357-376 | dropping negations that hold changes nothing |
| Capability.Document.Link | capability.go:24-46 | what dangles is reported and makes a plan unsupported; the rest becomes its dependencies |
| Capability.Document.RollUp | capability.go:9-66 | ends with each plan at the highest starting level among the plans it reaches |
| Capability.SettledPeak | capability.go:48-64 | levels no plan of which is below one it refers to, each brought by a reachable plan, are those maxima |
| Capability.PeakUnique | capability.go:48-64 | so the outcome does not depend on the order of the map |
| Schemas.DerivedInhabited | internal/frontend/inhabit.go:3-22 | by induction on a finite derivation, what has an instance is in every set closed under the analysis |
| Schemas.AnalyzeInhabitation | internal/frontend/inhabit.go:23-53 | the least such set, in whatever order; a schema outside it has no finite instance; recursive ones with required properties are reported |
| Schemas.InhabitedIff | internal/frontend/inhabit.go:15-87 | in documents of schemas the analysis models in full, references around any cycle included, the schemas found inhabited are exactly those with a finite instance |
| Schemas.EscapeExact | internal/frontend/inhabit.go:78-87 | a closed object schema with a required property it does not declare is found empty whatever its patterns, wrongly iff a finite value is let in for every required property |
| Schemas.EscapeShown | internal/frontend/inhabit.go:78-87 | such a schema that has an instance whenever its pattern matches the name |
| Schemas.KindAnalyzer.Of | internal/ir/refkinds.go:27-46 | ends on every reference graph; the memo always covers what its schemas accept, and lies between what all parts of a schema make of it and what those that do not lead back to it do |
| Schemas.KindAnalyzer.Compute | internal/ir/refkinds.go:48-86 | meets every sibling keyword, those still in progress counting as every kind, and still covers all that is accepted |
| Schemas.RefTargetKinds | internal/ir/refkinds.go:8-21 | a superset of the kinds the target accepts, and a solution of the equations |
| Schemas.SummaryUnique | internal/ir/refkinds.go:23-86 | off the cycles those equations have one solution, whatever schema the analysis began with |
| Schemas.SummaryHonest | internal/ir/refkinds.go:8-21 | such a summary makes a reference honest, which is all the normalizer asks of it |

## Left out

- Norm.State.NormalizePredicate: works on values, while the code writes the normalized schema through the pointer it was given (internal/norm/normalize.go:144-151); every pass keeps the meaning, so a caller that sees the write early sees an equivalent schema, but aliasing itself is not modelled.
- Norm.Normalize: the last pass gives back an expression equal to what it was given, literals compared by value; that a further pass would change no spelling either is not stated. After 64 passes the code stops wherever it is.
- Checks.Prune: returns the pruned tree instead of rewriting the nodes in place; the trees are not shared, so no aliasing is lost.
- GoTypes.Backend.BreakCycles: the sorting and deduplication of direct references is left out, references to types declared elsewhere are leaves, and a pattern slot is read as its element.
- GoWalk.Walker.Fold: the accumulator is what the visitor makes of the deliveries so far; the edge a type was reached by is left out.
- GoWalk.Walker.FoldChildren: the order of the children is not in the contract.
- Checks.Validators: the tally of reasons why a check is left unenforced is left out.
- Reporter.Report: member order and the text of messages are left out; a location is a list of steps rather than an escaped JSON Pointer.
- Reporter.ReportAll: says which errors are yielded and how often, not in which order; members of an object come in any order.
- TagFacts.Derive: literals are compared as values, without the shortcut through identical spellings.
- Unions.PresenceDispatchExact: speaks of objects only; on other values the dispatch accepts and the union need not.
- unevaluatedProperties and unevaluatedItems are read within their own shape where a shape's meaning is defined; the merges only record that they occur. $dynamicRef is an oracle. Evaluation annotations are left out: the code does not implement them.
- Bytes: the integer fast path, number spellings, string escapes and malformed input; the regular expression engine and the JSON decoder.
- The approximation record of the interpreter is a count; error paths of planterp are left out.
- Explanations of contradictions are a small datatype; their wording is left out.
- Exactness of a whole plan: representation, nullability and residual predicates of the planner, pushing context into branches, and the capability each construct starts with.
- How the check trees of generated types are paired with their plans (gogen/validate.go:46-267); only what is decided about the trees is modelled.
- YAML and document conversion, loaders, URI resolution, naming, rendering of Go source and codecs, command-line tools.
