# Flow-graph test scaffolding and the add-service form, in Dafny

This project models two parts of the frontend.

**The graph-analysis test scaffolding.** It lowers the compact array notation used in unit tests
(`['control_if_else', cond, [...], [...]]`) into the compiled block tree of the flow editor
(`CompiledBlock`, `ContentBlock`, `CompiledBlockArg`). It also canonicalizes compiled graphs so
that two graphs that differ only in block ids, in the order of commutative operands or fork paths,
or in the order of a list of graphs compare equal. There are two generations of this code:

- the current `scaffolding/graph-analysis-tools.ts` (modules `Lowering` and `Canonical`);
- the older `graph-analysis-tools.ts` (modules `LegacyLowering` and `LegacyCanonical`). It has
  no fork operation, no `ASTCompilationError`, keeps block ids and throws on kinds it does not know.

**The add-service form** (`add-services.component.ts`, modules `Selectors` and
`AddServicesComponent`). The form builds the HTTP request of a new service: its method, inputs
and headers. It also builds a response phrase in which `{element>key>key}` groups stand for values
of the service's example response. Clicking an element appends its group, written by
`selectorToString`. `resolveSelectors` then scans the phrase, looking each group up with
`evalSelector`.

Shared modules:

- `Results`: `Option`, and `Result` standing for a value or a thrown exception, plus `map`
  with exceptions.
- `Text`: JavaScript's `n + ''` on integral numbers.
- `FlowGraph`: the source AST and the compiled tree.
- `Sorting`: `Array.prototype.sort` with a `localeCompare` comparator, as a stable insertion
  sort on a code-unit order.
- `StableJson`: the stable (sorted-key) JSON text the canonicalizer sorts by, proved injective.

Functions specify, and loops are methods proved equal to them:

- `convert_ast`'s loop is `Lowering.ConvertAst`;
- `evalSelector` is `Selectors.EvalSelector`;
- `resolveSelectors` and its inner group loop are `Selectors.ResolveSelectors`,
  `Selectors.ResolveGroup` and `Selectors.ReadGroup`.

The component is a class whose methods update its fields and its `Request` object in place.

## Model

| member | source | states |
|---|---|---|
| Text.NatToString | frontend/src/app/tests/logic/scaffolding/graph-analysis-tools.ts:29 | the text of a number is a non-empty run of decimal digits |
| Text.IntToString | frontend/src/app/tests/logic/scaffolding/graph-analysis-tools.ts:29 | the text of an integer is non-empty and made of digits and a minus sign |
| Text.NatRoundTrip | frontend/src/app/tests/logic/scaffolding/graph-analysis-tools.ts:29 | reading the digits back gives the number |
| Text.SignMark | frontend/src/app/tests/logic/scaffolding/graph-analysis-tools.ts:29 | the text starts with `-` exactly when the number is negative |
| Text.IntToStringInjective | frontend/src/app/tests/logic/scaffolding/graph-analysis-tools.ts:29 | different numbers become different constants |
| Results.MapAllMaps | frontend/src/app/tests/logic/scaffolding/graph-analysis-tools.ts:228 | `map` with a throwing callback yields the callback's results in order, or the first exception |
| Results.MapsToOk | frontend/src/app/tests/logic/scaffolding/graph-analysis-tools.ts:228 | a `map` succeeds exactly when the callback succeeds on every element |
| Results.FixedPointsMap | frontend/src/app/tests/logic/scaffolding/graph-analysis-tools.ts:228 | mapping a callback that leaves every element unchanged leaves the array unchanged |
| Sorting.LexLeTotal | frontend/src/app/tests/logic/scaffolding/graph-analysis-tools.ts:195 | any two serializations are comparable |
| Sorting.LexLeAntisymmetric | frontend/src/app/tests/logic/scaffolding/graph-analysis-tools.ts:195 | two serializations ordered both ways are equal |
| Sorting.LexLeTransitive | frontend/src/app/tests/logic/scaffolding/graph-analysis-tools.ts:195 | the comparison is transitive |
| Sorting.SortPermutes | frontend/src/app/tests/logic/scaffolding/graph-analysis-tools.ts:195 | sorting keeps exactly the elements it was given (a permutation) |
| Sorting.SortSorts | frontend/src/app/tests/logic/scaffolding/graph-analysis-tools.ts:195 | the sorted array is in ascending order of serialization |
| Sorting.SortedUnique | frontend/src/app/tests/logic/scaffolding/graph-analysis-tools.ts:195 | with an injective key, two sorted arrays with the same elements are equal |
| Sorting.SortForgetsOrder | frontend/src/app/tests/logic/scaffolding/graph-analysis-tools.ts:234 | with an injective key, the result depends only on which elements there are, not their order |
| Sorting.SortKeepsSorted | frontend/src/app/tests/logic/scaffolding/graph-analysis-tools.ts:195 | an already sorted array is left as it is |
| Sorting.MapPermutes | frontend/src/app/tests/logic/scaffolding/graph-analysis-tools.ts:234 | mapping two permutations of one array gives permutations of one another |
| StableJson.WBlockInjective | frontend/src/app/tests/logic/scaffolding/graph-analysis-tools.ts:3 | the stable JSON text of a block, followed by any text, determines both the block and the text |
| StableJson.WContentInjective | frontend/src/app/tests/logic/scaffolding/graph-analysis-tools.ts:3 | the same for a content entry (block or content block) |
| StableJson.WArgInjective | frontend/src/app/tests/logic/scaffolding/graph-analysis-tools.ts:3 | the same for a compiled argument |
| StableJson.SerArgInjective | frontend/src/app/tests/logic/scaffolding/graph-analysis-tools.ts:195 | distinct arguments have distinct sort keys |
| StableJson.SerContentInjective | frontend/src/app/tests/logic/scaffolding/graph-analysis-tools.ts:201 | distinct fork paths have distinct sort keys |
| StableJson.SerGraphInjective | frontend/src/app/tests/logic/scaffolding/graph-analysis-tools.ts:234 | distinct graphs have distinct sort keys |
| Lowering.ConvertArgument | frontend/src/app/tests/logic/scaffolding/graph-analysis-tools.ts:25-37 | strings and numbers become constants holding their text; a nested operation becomes a one-block argument of its kind, failing exactly when its lowering fails |
| Lowering.ConvertOperation | frontend/src/app/tests/logic/scaffolding/graph-analysis-tools.ts:55-116 | a lowered block has the operation's tag as its kind and no id |
| Lowering.CallServiceLowering | frontend/src/app/tests/logic/scaffolding/graph-analysis-tools.ts:57-75 | a monitor wait keeps its argument object; a service call keeps id and action, lowers its values in order and has no contents |
| Lowering.IfElseLowering | frontend/src/app/tests/logic/scaffolding/graph-analysis-tools.ts:77-89 | an if/else has its condition as only argument and its branches as contents, with one empty section appended when there are fewer than two (so zero branches give one section) |
| Lowering.SingleBranchIsPadded | frontend/src/app/tests/logic/scaffolding/graph-analysis-tools.ts:80-82 | an if/else with one branch gets an empty else section |
| Lowering.ForkLowering | frontend/src/app/tests/logic/scaffolding/graph-analysis-tools.ts:91-103 | a fork lowers its arguments and each path in order, with no padding |
| Lowering.DefaultLowering | frontend/src/app/tests/logic/scaffolding/graph-analysis-tools.ts:105-115 | any other tag keeps its name and lowers its remaining elements as arguments, with no contents |
| Lowering.ConvertArgsMaps | frontend/src/app/tests/logic/scaffolding/graph-analysis-tools.ts:113 | arguments are lowered one by one, in order, the first failure aborting |
| Lowering.LowerAllMaps | frontend/src/app/tests/logic/scaffolding/graph-analysis-tools.ts:39-47 | the operations of a list are lowered one by one, in order |
| Lowering.ConvertBranchesMaps | frontend/src/app/tests/logic/scaffolding/graph-analysis-tools.ts:78 | the branches are lowered one by one, in order |
| Lowering.ConvertContentsKeepsOrder | frontend/src/app/tests/logic/scaffolding/graph-analysis-tools.ts:49-53 | a section succeeds exactly when all its operations do, and holds their blocks in order |
| Lowering.ConvertContents | frontend/src/app/tests/logic/scaffolding/graph-analysis-tools.ts:49-53 | a section wraps the lowered operation list; its properties are stated by `ConvertContentsKeepsOrder` (blocks in order, failing exactly when an operation fails), `EntriesFailIffStray` and `LoweredBranchesShape` |
| Lowering.StrayRaises | frontend/src/app/tests/logic/scaffolding/graph-analysis-tools.ts:105-109 | a bare string where an operation belongs raises `ASTCompilationError`, naming the string without its first character |
| Lowering.LoweringFailsIffStray | frontend/src/app/tests/logic/scaffolding/graph-analysis-tools.ts:105-109 | lowering an operation fails exactly when a bare string sits somewhere in it where an operation belongs |
| Lowering.ArgFailsIffStray | frontend/src/app/tests/logic/scaffolding/graph-analysis-tools.ts:25-37 | the same for one argument |
| Lowering.ArgsFailIffStray | frontend/src/app/tests/logic/scaffolding/graph-analysis-tools.ts:113 | the same for a list of arguments |
| Lowering.EntryFailsIffStray | frontend/src/app/tests/logic/scaffolding/graph-analysis-tools.ts:42 | the same for one entry of an operation list |
| Lowering.EntriesFailIffStray | frontend/src/app/tests/logic/scaffolding/graph-analysis-tools.ts:39-47 | the same for an operation list |
| Lowering.BranchesFailIffStray | frontend/src/app/tests/logic/scaffolding/graph-analysis-tools.ts:78 | the same for a list of branches |
| Lowering.LoweredOpShape | frontend/src/app/tests/logic/scaffolding/graph-analysis-tools.ts:55-116 | every lowered block is well formed: it has a kind and no id, argument lists hold constants and one-block arguments, and its contents are sections of blocks |
| Lowering.LoweredArgShape | frontend/src/app/tests/logic/scaffolding/graph-analysis-tools.ts:25-37 | every lowered argument is well formed |
| Lowering.LoweredEntriesShape | frontend/src/app/tests/logic/scaffolding/graph-analysis-tools.ts:39-47 | every block of a lowered list is well formed |
| Lowering.LoweredBranchesShape | frontend/src/app/tests/logic/scaffolding/graph-analysis-tools.ts:78 | every lowered branch is a section of well-formed blocks |
| Lowering.ConvertAst | frontend/src/app/tests/logic/scaffolding/graph-analysis-tools.ts:39-47 | the loop pushes the lowered operations in order: one well-formed block per operation, or the first error |
| Lowering.GenCompiled | frontend/src/app/tests/logic/scaffolding/graph-analysis-tools.ts:118-121 | generation fails exactly when the AST holds a stray string; otherwise the result is the linker applied to the lowered graph |
| LegacyLowering.ConvertOperation | frontend/src/app/tests/logic/graph-analysis-tools.ts:46-89 | a lowered block has the operation's tag as kind and no id |
| LegacyLowering.OperationAgrees | frontend/src/app/tests/logic/graph-analysis-tools.ts:46-89 | on fork-free input the old lowering gives the new one's blocks; where the new one raises `ASTCompilationError`, the old one raises a `TypeError` |
| LegacyLowering.ArgAgrees | frontend/src/app/tests/logic/graph-analysis-tools.ts:22-34 | the same agreement for one argument |
| LegacyLowering.ConvertArgument | frontend/src/app/tests/logic/graph-analysis-tools.ts:22-34 | strings and numbers become constants and an operation a one-block argument; `ArgAgrees` proves it equal to the newer `convert_argument` on fork-free input, so `Lowering.ConvertArgument`'s contract carries over |
| LegacyLowering.ArgsAgree | frontend/src/app/tests/logic/graph-analysis-tools.ts:86 | the same agreement for a list of arguments |
| LegacyLowering.EntryAgrees | frontend/src/app/tests/logic/graph-analysis-tools.ts:36-38 | the same agreement for one content entry |
| LegacyLowering.EntriesAgree | frontend/src/app/tests/logic/graph-analysis-tools.ts:92 | the same agreement for an operation list |
| LegacyLowering.BranchesAgree | frontend/src/app/tests/logic/graph-analysis-tools.ts:69 | the same agreement for the branches of an if/else |
| LegacyLowering.ArgsMap | frontend/src/app/tests/logic/graph-analysis-tools.ts:86 | arguments succeed exactly when each does, and are lowered element by element in order |
| LegacyLowering.EntriesMap | frontend/src/app/tests/logic/graph-analysis-tools.ts:92 | an operation list succeeds exactly when each operation does, element by element in order |
| LegacyLowering.BranchesMap | frontend/src/app/tests/logic/graph-analysis-tools.ts:69 | the branches succeed exactly when each does, each lowered to its section in order |
| LegacyLowering.GenCompiledMaps | frontend/src/app/tests/logic/graph-analysis-tools.ts:91-94 | the old `gen_compiled` maps every operation to its block, in order, with no linking and no ids |
| LegacyLowering.GenCompiledShape | frontend/src/app/tests/logic/graph-analysis-tools.ts:91-94 | it fails, with a `TypeError`, exactly when a stray string is present; otherwise it gives one well-formed block per operation |
| LegacyLowering.ContentsKeepOrder | frontend/src/app/tests/logic/graph-analysis-tools.ts:40-44 | a section is a content block holding the lowered operations in order |
| LegacyLowering.ConvertContents | frontend/src/app/tests/logic/graph-analysis-tools.ts:40-44 | a section holds one lowered block per operation, in order; stated by `ContentsKeepOrder` and `BranchesMap` |
| LegacyLowering.GenCompiled | frontend/src/app/tests/logic/graph-analysis-tools.ts:91-94 | the old generation maps `convert_operation` over the list with nothing linked; stated by `GenCompiledMaps` (one block per operation, no ids) and `GenCompiledShape` (fails, with a `TypeError`, exactly when a bare string sits where an operation belongs) |
| LegacyLowering.IfElsePadded | frontend/src/app/tests/logic/graph-analysis-tools.ts:68-80 | an if/else has its condition as only argument; its branches, in order, get one empty section appended when there are fewer than two (so zero branches give one section) |
| LegacyLowering.DefaultLowering | frontend/src/app/tests/logic/graph-analysis-tools.ts:82-88 | any other tag keeps its name and lowers its remaining elements as arguments, with no contents |
| Canonical.CanonOp | frontend/src/app/tests/logic/scaffolding/graph-analysis-tools.ts:144-225 | canonicalizing drops the id and keeps the kind; the only failure is a `map` over arguments that are not a list |
| Canonical.DropExitFlag | frontend/src/app/tests/logic/scaffolding/graph-analysis-tools.ts:204-206 | removes every `exit-when-all-completed` constant and nothing else (as a multiset) |
| Canonical.DropExitFlagSpec | frontend/src/app/tests/logic/scaffolding/graph-analysis-tools.ts:204-206 | after filtering, no flag remains, every other argument remains, and a list without the flag is unchanged |
| Canonical.KeepsAllOtherArgs | frontend/src/app/tests/logic/scaffolding/graph-analysis-tools.ts:205 | a fork without the flag keeps its arguments exactly, in order |
| Canonical.KeptKindsUnchanged | frontend/src/app/tests/logic/scaffolding/graph-analysis-tools.ts:149-154 | monitor waits, last values, jumps, first-completed triggers and unknown kinds only lose their id |
| Canonical.WalkedDispatch | frontend/src/app/tests/logic/scaffolding/graph-analysis-tools.ts:157-178 | the walked kinds and `services.*` blocks canonicalize their argument list and contents, or throw when the arguments are not a list |
| Canonical.WalkedKindsKeepOrder | frontend/src/app/tests/logic/scaffolding/graph-analysis-tools.ts:157-178 | for those kinds, success exactly when every argument and content entry canonicalizes, each kept in place |
| Canonical.CallServiceValues | frontend/src/app/tests/logic/scaffolding/graph-analysis-tools.ts:181-186 | a service call canonicalizes its values in order and keeps id and action; without a values dict it only loses its id |
| Canonical.CommutativeDispatch | frontend/src/app/tests/logic/scaffolding/graph-analysis-tools.ts:189-196 | `and` and `equals` canonicalize their operands and sort them by stable JSON text |
| Canonical.OperandOrderIrrelevant | frontend/src/app/tests/logic/scaffolding/graph-analysis-tools.ts:189-196 | `and`/`equals` blocks whose operands are permutations canonicalize to the same block, whose operands are sorted and are a permutation of the canonical operands |
| Canonical.ForkDispatch | frontend/src/app/tests/logic/scaffolding/graph-analysis-tools.ts:199-208 | a fork sorts its canonical paths and drops the exit flag from its argument list |
| Canonical.ForkPathOrderIrrelevant | frontend/src/app/tests/logic/scaffolding/graph-analysis-tools.ts:199-208 | forks whose paths are permutations canonicalize to the same block: paths sorted and permuted, no exit flag, all other arguments kept |
| Canonical.UntypedContentFlattened | frontend/src/app/tests/logic/scaffolding/graph-analysis-tools.ts:135-142 | an entry with an empty type is treated as a content block, and its contents are canonicalized |
| Canonical.CanonArgsMaps | frontend/src/app/tests/logic/scaffolding/graph-analysis-tools.ts:173 | arguments are canonicalized one by one, in order |
| Canonical.CanonOpsMaps | frontend/src/app/tests/logic/scaffolding/graph-analysis-tools.ts:227-229 | `canonicalize_ast` canonicalizes the blocks one by one, in order |
| Canonical.CanonContentsMaps | frontend/src/app/tests/logic/scaffolding/graph-analysis-tools.ts:176 | content entries are canonicalized one by one, in order |
| Canonical.MapsToPermutes | frontend/src/app/tests/logic/scaffolding/graph-analysis-tools.ts:234 | mapping permuted inputs succeeds on both or neither, giving permuted results |
| Canonical.AstListOrderIrrelevant | frontend/src/app/tests/logic/scaffolding/graph-analysis-tools.ts:231-235 | a list of graphs canonicalizes to a sorted permutation of the canonical graphs, whatever the order of the input |
| Canonical.SortedArgsStayCanonical | frontend/src/app/tests/logic/scaffolding/graph-analysis-tools.ts:195 | sorting canonical operands keeps them canonical, and sorting again changes nothing |
| Canonical.SortedContentsStayCanonical | frontend/src/app/tests/logic/scaffolding/graph-analysis-tools.ts:201 | sorting canonical paths keeps them canonical, and sorting again changes nothing |
| Canonical.OpIdempotent | frontend/src/app/tests/logic/scaffolding/graph-analysis-tools.ts:144-225 | canonicalizing a canonical block changes nothing |
| Canonical.ArgIdempotent | frontend/src/app/tests/logic/scaffolding/graph-analysis-tools.ts:123-133 | canonicalizing a canonical argument changes nothing |
| Canonical.CanonArg | frontend/src/app/tests/logic/scaffolding/graph-analysis-tools.ts:123-133 | a constant stays a constant and a block argument stays a block argument; the only failure is the `map` error of a non-array argument list; idempotence is `ArgIdempotent` |
| Canonical.ArgsIdempotent | frontend/src/app/tests/logic/scaffolding/graph-analysis-tools.ts:173 | the same for an argument list |
| Canonical.OpsIdempotent | frontend/src/app/tests/logic/scaffolding/graph-analysis-tools.ts:227-229 | the same for a graph |
| Canonical.CanonAst | frontend/src/app/tests/logic/scaffolding/graph-analysis-tools.ts:227-229 | every block of the graph canonicalized, in order (`CanonOpsMaps`); idempotent (`OpsIdempotent`) |
| Canonical.ContentIdempotent | frontend/src/app/tests/logic/scaffolding/graph-analysis-tools.ts:135-142 | the same for a content entry |
| Canonical.CanonContent | frontend/src/app/tests/logic/scaffolding/graph-analysis-tools.ts:135-142 | the only failure is the `map` error; a typed entry is canonicalized as a block and an untyped one has its entries canonicalized (`UntypedContentFlattened`); idempotence is `ContentIdempotent` |
| Canonical.ContentsIdempotent | frontend/src/app/tests/logic/scaffolding/graph-analysis-tools.ts:176 | the same for a list of content entries |
| Canonical.AstListIdempotent | frontend/src/app/tests/logic/scaffolding/graph-analysis-tools.ts:231-235 | canonicalizing a canonical list of graphs changes nothing |
| Canonical.CanonAstList | frontend/src/app/tests/logic/scaffolding/graph-analysis-tools.ts:231-235 | every graph canonicalized, then the list sorted by stable JSON text; `AstListOrderIrrelevant` states the length, sortedness, permutation and order independence, `AstListIdempotent` idempotence |
| Canonical.LoweredOpCanonicalizes | frontend/src/app/tests/logic/scaffolding/graph-analysis-tools.ts:144-225 | every block the lowering produces canonicalizes without error |
| Canonical.LoweredArgCanonicalizes | frontend/src/app/tests/logic/scaffolding/graph-analysis-tools.ts:123-133 | the same for every lowered argument |
| Canonical.LoweredOpsCanonicalize | frontend/src/app/tests/logic/scaffolding/graph-analysis-tools.ts:227-229 | a lowered graph canonicalizes without error |
| Canonical.LoweredSectionsCanonicalize | frontend/src/app/tests/logic/scaffolding/graph-analysis-tools.ts:135-142 | the lowered sections of a block canonicalize without error |
| LegacyCanonical.CanonOp | frontend/src/app/tests/logic/graph-analysis-tools.ts:117-154 | the old canonicalizer keeps id and kind, and throws `Unknown operation` on any kind other than the seven it lists |
| LegacyCanonical.UnknownKindFails | frontend/src/app/tests/logic/graph-analysis-tools.ts:149-150 | a graph whose first block has an unlisted kind fails with that kind |
| LegacyCanonical.IfElseKeepsOrder | frontend/src/app/tests/logic/graph-analysis-tools.ts:124-127 | if/else canonicalizes its arguments and contents in place, keeping the id |
| LegacyCanonical.SetValueKeepsContents | frontend/src/app/tests/logic/graph-analysis-tools.ts:129-131 | `flow_set_value` canonicalizes its arguments in place and leaves its contents alone |
| LegacyCanonical.CallServiceValues | frontend/src/app/tests/logic/graph-analysis-tools.ts:133-138 | a service call canonicalizes its values in order; without a values dict it is unchanged |
| LegacyCanonical.OperatorArgsSorted | frontend/src/app/tests/logic/graph-analysis-tools.ts:140-147 | `and`/`equals` operands become a sorted permutation of the canonical operands; contents are kept |
| LegacyCanonical.OperandOrderIrrelevant | frontend/src/app/tests/logic/graph-analysis-tools.ts:140-147 | permuted operands canonicalize to the same, sorted block |
| LegacyCanonical.CanonArgsMaps | frontend/src/app/tests/logic/graph-analysis-tools.ts:125 | arguments are canonicalized one by one, in order |
| LegacyCanonical.CanonContentsMaps | frontend/src/app/tests/logic/graph-analysis-tools.ts:126 | content entries are canonicalized one by one, in order |
| LegacyCanonical.AstListOrderIrrelevant | frontend/src/app/tests/logic/graph-analysis-tools.ts:160-164 | a list of graphs canonicalizes to a sorted permutation of the canonical graphs, whatever the input order |
| LegacyCanonical.CanonAstList | frontend/src/app/tests/logic/graph-analysis-tools.ts:160-164 | every graph canonicalized, then sorted by stable JSON text; `AstListOrderIrrelevant` states the length, sortedness, permutation and order independence |
| LegacyCanonical.SortedArgsStayCanonical | frontend/src/app/tests/logic/graph-analysis-tools.ts:146 | sorted canonical operands stay canonical and sorting again changes nothing |
| LegacyCanonical.OpIdempotent | frontend/src/app/tests/logic/graph-analysis-tools.ts:117-154 | canonicalizing a canonical block changes nothing |
| LegacyCanonical.ArgIdempotent | frontend/src/app/tests/logic/graph-analysis-tools.ts:96-106 | the same for an argument |
| LegacyCanonical.CanonArg | frontend/src/app/tests/logic/graph-analysis-tools.ts:96-106 | a constant stays a constant and a block argument stays a block argument; idempotence is `ArgIdempotent` |
| LegacyCanonical.ArgsIdempotent | frontend/src/app/tests/logic/graph-analysis-tools.ts:125 | the same for an argument list |
| LegacyCanonical.OpsIdempotent | frontend/src/app/tests/logic/graph-analysis-tools.ts:156-158 | the same for a graph |
| LegacyCanonical.CanonAst | frontend/src/app/tests/logic/graph-analysis-tools.ts:156-158 | every block of the graph canonicalized, in order; idempotent (`OpsIdempotent`); an unlisted kind throws (`UnknownKindFails`) |
| LegacyCanonical.ContentIdempotent | frontend/src/app/tests/logic/graph-analysis-tools.ts:108-115 | the same for a content entry |
| LegacyCanonical.CanonContent | frontend/src/app/tests/logic/graph-analysis-tools.ts:108-115 | a typed entry is canonicalized as a block and an untyped one has its entries canonicalized in order (`CanonContentsMaps`); idempotence is `ContentIdempotent` |
| LegacyCanonical.ContentsIdempotent | frontend/src/app/tests/logic/graph-analysis-tools.ts:126 | the same for a list of content entries |
| Selectors.ArrayIndex | frontend/src/app/add-services.component.ts:149 | a key that indexes an array is the canonical decimal text of that index |
| Selectors.ArrayIndexOfNumeral | frontend/src/app/add-services.component.ts:149 | every index is read through its decimal numeral, so numerals and indices correspond one to one |
| Selectors.Step | frontend/src/app/add-services.component.ts:149 | reading a property throws a `TypeError` exactly on `undefined` and `null`; a string index reads one character of the string; missing properties read as `undefined` |
| Selectors.EvalSelector | frontend/src/app/add-services.component.ts:145-153 | the loop follows `selector[1..]` key by key from the data, as `Select` specifies; reading through `undefined` or `null` throws |
| Selectors.Select | frontend/src/app/add-services.component.ts:145-153 | a selector of at most one part selects the data itself, the root part never being looked up; `SelectSteps` and `FollowAppend` state the rest |
| Selectors.SelectSteps | frontend/src/app/add-services.component.ts:145-153 | the first part of a selector is never looked up, and one more part is one more property access |
| Selectors.FollowAppend | frontend/src/app/add-services.component.ts:147-150 | following two paths in turn is following their concatenation |
| Selectors.ResolveSelectors | frontend/src/app/add-services.component.ts:156-199 | the loop computes the phrase's resolution `Resolve`: literal characters copied, escapes unescaped, groups replaced by the text of the value they select, the first failing lookup aborting |
| Selectors.ResolveGroup | frontend/src/app/add-services.component.ts:167-195 | one group: a failing lookup is the outcome of the whole phrase; otherwise its text extends the result and scanning goes on after the `}` |
| Selectors.ReadGroup | frontend/src/app/add-services.component.ts:172-192 | the inner loop collects the parts the scanner specifies and stops at the closing `}` or the end |
| Selectors.EscapedStep | frontend/src/app/add-services.component.ts:160-163 | an escaped character is copied and both characters are consumed, keeping the loop invariant |
| Selectors.PlainStep | frontend/src/app/add-services.component.ts:164-166 | any other character outside `{` is copied, keeping the loop invariant |
| Selectors.GroupStep | frontend/src/app/add-services.component.ts:167-195 | a group's value is written as text, or its lookup error ends the phrase |
| Selectors.PlainPhraseUnchanged | frontend/src/app/add-services.component.ts:159-198 | a phrase with no `{` and no `\` resolves to itself, whatever the data |
| Selectors.EscapeOutside | frontend/src/app/add-services.component.ts:160-163 | outside a group `\c` stands for `c`; a final `\` stands for itself |
| Selectors.EscapeInside | frontend/src/app/add-services.component.ts:173-176 | inside a group `\c` adds `c` to the current part; a final `\` is kept |
| Selectors.GroupDelimiters | frontend/src/app/add-services.component.ts:177-192 | `>` ends a part even when it is empty; `}` ends the group and keeps the last part only if it is not empty |
| Selectors.UnterminatedGroup | frontend/src/app/add-services.component.ts:172-187 | a group that is never closed consumes the rest of the phrase |
| Selectors.UnterminatedPhrase | frontend/src/app/add-services.component.ts:167-195 | an unclosed `{` turns the rest of the phrase into one last group |
| Selectors.Scan | frontend/src/app/add-services.component.ts:159-192 | the scanner reads a phrase into at most as many pieces as it has characters, each piece consuming at least one; `EscapeOutside`, `GroupDelimiters` and `UnterminatedPhrase` state its cases |
| Selectors.Resolve | frontend/src/app/add-services.component.ts:156-199 | the text of the scanned pieces, the first failing lookup aborting; stated by `ResolveSelectors` (the loop computes it), `PlainPhraseUnchanged` and `SelectorRoundTrip` |
| Selectors.EscapeFirst | frontend/src/app/add-services.component.ts:139-140 | replacing the first occurrence changes nothing when the character does not occur |
| Selectors.EscapeFirstAt | frontend/src/app/add-services.component.ts:139-140 | `replace` with a string pattern escapes only the first occurrence, at `k`, and leaves everything after it alone |
| Selectors.SecondSeparatorUnescaped | frontend/src/app/add-services.component.ts:139-140 | a part holding `>` twice keeps its second `>` unescaped: `a>b>c` is written `a\>b>c` |
| Selectors.EscapeFirstAddsOnlyBackslash | frontend/src/app/add-services.component.ts:139-140 | escaping adds backslashes and no other character |
| Selectors.EncodeEscapesAll | frontend/src/app/add-services.component.ts:138-140 | on a part with no `\` and at most one `>` and one `}`, escaping only the first of each escapes all of them |
| Selectors.SelectorToStringAsWritten | frontend/src/app/add-services.component.ts:135-142 | the string is every part of `["element"]` followed by the selector, escaped and joined with `>` |
| Selectors.SelectorToString | frontend/src/app/add-services.component.ts:135-142 | the string always opens with the root `element`, and is exactly `element` for an empty selector; `SelectorRoundTrip` states that it reads back |
| Selectors.ElementWritable | frontend/src/app/add-services.component.ts:136 | the root part `element` needs no escaping |
| Selectors.ScanEscaped | frontend/src/app/add-services.component.ts:173-183 | inside a group, an escaped part is read back character for character |
| Selectors.ScanJoined | frontend/src/app/add-services.component.ts:172-192 | parts written by escaping, joined by `>` and closed by `}`, are read back as those parts |
| Selectors.GroupRoundTrip | frontend/src/app/add-services.component.ts:137-141 | a group of writable parts whose last part is not empty is scanned back as exactly those parts |
| Selectors.SelectorRoundTrip | frontend/src/app/add-services.component.ts:135-142 | the group `selectorToString` writes is read back by `resolveSelectors` as `element` followed by the selector |
| AddServicesComponent.Trim | frontend/src/app/add-services.component.ts:85 | the trimmed text is a slice of the field that neither starts nor ends with white space |
| AddServicesComponent.TrimmedNonEmpty | frontend/src/app/add-services.component.ts:86 | a field trims to something exactly when it holds a character that is not white space |
| AddServicesComponent.TrimIdempotent | frontend/src/app/add-services.component.ts:85 | trimming twice is trimming once |
| AddServicesComponent.Request.constructor | frontend/src/app/add-services.component.ts:54-55 | a new request is an empty GET request with no inputs and no headers |
| AddServicesComponent.AddServices.constructor | frontend/src/app/add-services.component.ts:53-59 | the form starts with an empty GET request, empty fields and an empty phrase |
| AddServicesComponent.AddServices.SelectMethodGet | frontend/src/app/add-services.component.ts:76-78 | the request's method becomes GET and nothing else changes |
| AddServicesComponent.AddServices.SelectMethodPost | frontend/src/app/add-services.component.ts:80-82 | the request's method becomes POST and nothing else changes |
| AddServicesComponent.AddServices.AddInput | frontend/src/app/add-services.component.ts:84-94 | a field that trims to a name appends that input, with an empty default value, and clears the field; otherwise nothing changes |
| AddServicesComponent.AddServices.AddHeader | frontend/src/app/add-services.component.ts:96-106 | the same for the header field and the header list |
| AddServicesComponent.AddServices.AddElement | frontend/src/app/add-services.component.ts:202-214 | the element's group is appended to the phrase, after a space if the phrase was not empty; the result is the new phrase's resolution, stored in `resolved` when it succeeds |
| AddServicesComponent.AppendGroup | frontend/src/app/add-services.component.ts:205-209 | appending a group keeps the old phrase as a prefix and makes it longer |
| AddServicesComponent.FirstElementResolves | frontend/src/app/add-services.component.ts:202-212 | the first element added to an empty phrase resolves to the text of the value its selector picks out of the example |
| AddServicesComponent.LoneGroup | frontend/src/app/add-services.component.ts:194-198 | a phrase that is a single group resolves to the text of the selected value |

## Left out

- `_link_graph` (`flow-editor/graph_analysis.ts`) is not part of this model. `Lowering.GenCompiled` takes the linker as a parameter and states that it receives the lowered graph.
- `fast-json-stable-stringify` and `json-stable-stringify` are not part of this model. `StableJson` writes the same shape: keys in ascending order, no whitespace, an absent `id` omitted. It escapes only `"` and `\`; other control characters are not escaped.
- `localeCompare` is modelled as lexicographic order on character codes, which is total and antisymmetric. Locale collation is left out, and it matters: `localeCompare` returns 0 for distinct but canonically equivalent strings (`"\u00C5"` and `"A\u030A"`), and the stable sort then keeps such items in input order. `Canonical.OperandOrderIrrelevant`, `Canonical.ForkPathOrderIrrelevant`, `Canonical.AstListOrderIrrelevant` and the `LegacyCanonical` counterparts therefore hold for the program only when no two distinct stable JSON texts being sorted compare equal under `localeCompare`.
- `Array.prototype.sort` is modelled as a stable insertion sort. With an injective key every correct sort gives the same result (`Sorting.SortedUnique`).
- Canonicalization mutates blocks in place, and arrays may share blocks. The model works on values, so aliasing between the input and the output is not captured.
- Numbers are integers. Floating-point constants and their text (`1.5`, exponents, `NaN`) are left out.
- A monitor's `expected_value` is a JSON scalar; objects and arrays there are left out.
- `console.warn` and `console.log` calls, including the warning for a fork with fewer than two paths, are left out.
- LegacyLowering.ConvertOperation: requires fork-free input, because the old AST type has no fork operation.
- LegacyCanonical.CanonOp: the old switch lists seven kinds, counting `flow_set_value`, and this model follows that code.
- Selectors.SelectorRoundTrip: the round trip needs each part to hold no `\`, at most one `>` and one `}`, and a non-empty last part. `selectorToString` escapes only the first `>` and `}` of a part and never escapes `\`, and the scanner drops an empty last part. Other selectors are not read back as written: `Selectors.EscapeFirstAt` and `Selectors.SecondSeparatorUnescaped` show that a second `>` stays unescaped.
- Selectors.Step: only own properties are looked up. Inherited properties read as `undefined`: `toString`, `constructor`, `valueOf` and `__proto__` on objects; `toFixed` and the like on numbers and booleans; the methods of strings and arrays. Strings are sequences of Unicode scalar values, not UTF-16 code units, so `length` and indices differ on characters outside the Basic Multilingual Plane (`"😀".length` is 2 in JavaScript and 1 here). `Lowering.SliceFrom1` drops one scalar value where `slice(1)` drops one code unit in the same way.
- The DOM walk of `getJSONSelector` is left out. `AddServices.AddElement` takes the selector it would return as a parameter.
- The snackbar, HTTP calls (`test`, `create`), session checks, navigation and progress-bar helpers are left out.
- `service.ts`, `session.ts` and the `Service` object the form holds are not part of this model.
- `testExample` holds the parsed example response. It starts as `undefined`, as the uninitialised field does, and is only set by the HTTP `test` call, which is left out.
