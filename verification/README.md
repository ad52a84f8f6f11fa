# The Vertz compiler core, modelled in Dafny

Vertz compiles JSX components twice: into client code that builds DOM nodes, and into a server-side
expression that builds an HTML string. Both compilers write their output through a queued-edit text
buffer. This project models those pieces of `native/vertz-compiler-core` and proves what they promise.

## What is modelled

| files | subject |
|---|---|
| `Pieces`, `EditMeaning`, `EditOrder`, `EditSweep`, `EditQueue`, `EditGluing` | The edit buffer. `EditMeaning` says position by position what a queue of inserts and overwrites means; the class `EditQueue.MagicString` sorts events and sweeps a cursor, and its two renderers are proved to compute that meaning for every in-bounds queue, nested and overlapping overwrites included. `EditOrder` says of the edits themselves what a position receives. |
| `JsxSyntax`, `AotReader`, `AotReading`, `AotCompiler`, `AotReference`, `AotAttributes`, `AotCorrect`, `AotGuards`, `AotBodies`, `AotNesting`, `AotTables`, `AotAdditive` | The server back end. `AotCompiler` emits text; `AotReader` reads such text as a JavaScript string expression and evaluates it in an abstract world; `AotReference` renders the tree directly, with no text in between. Evaluating what was emitted equals rendering the tree. `AotReference` and `AotNesting` keep their own tables of names, and `AotTables` writes out what each table makes of the output. `AotBodies` says for which runs of a body its compiled text is right, and `AotAdditive` computes what JavaScript makes of copied slices that fall apart. |
| `ClientCompiler`, `ClientDom`, `ClientRun`, `ClientBuild`, `ClientLive`, `BackEnds` | The client back end for DOM elements, fragments and text: the code generator with its variable counter, a heap machine that runs the emitted program, what attributes and properties show as values change (`ClientLive`), and the comparison of the serialised DOM with the server's string. |
| `JsxWalkers` | The two tree walkers that divide the JSX nodes of a component between the top-level transform and the inline transform of a prop value. |
| `MountFrames`, `MountFrameRun`, `MountFrameOrder`, `MountFrameTry` | Mount-frame wrapping: which returns are collected, what the body reads like after overwriting, and runs of whole programs of components on one frame stack against a reference that has no stack. |
| `FieldTracking`, `FieldPaths`, `FieldRenaming`, `FieldConfusion`, `FieldWitness` | Query field tracking: which reads record which fields, and exactly when renaming shadowing bindings leaves the record of a query variable alone. |
| `JsxWhitespace`, `JsxLines`, `Replacing`, `TextSearch`, `InlineSubstitution`, `SubstitutionOrder`, `StyleTree`, `StyleOrder`, `StyleNames`, `HelperScan`, `HelperParts` | Supporting algorithms: the two JSX text cleaners, word substitution and the order of substitutions, style flattening, the order of its declarations and class-name hashing, and the comment/string/regex scanner with helper-call detection. |

Expressions that the compilers copy without looking inside are opaque slices with an identity and an
outermost precedence. Values, helpers, components and user code are parameters (`World`), so every
theorem holds for all of them. Loops and objects that the source updates step by step are methods and
classes, each proved equal to a function about which the lemmas speak.

## Where the code does not do the obvious thing

Each of these is proved, most of them as an exact condition.

- Cutting a slice in two and gluing it back doubles inserts queued at the cut and drops zero-width
  overwrites there; the whole file and the slice of everything differ by the zero-width overwrites at
  the two ends (`SlicesCompose`, `WholeIsSlice`).
- Emitted server text reads as the chain of operands it was written as, every copied slice one operand,
  if and only if no quoted attribute of a DOM element holds a carriage return, no value of a boolean
  attribute is looser than a conditional test, every raw `innerHTML` value binds tighter than `+`, every
  prop of a component has an identifier name, and no bare comma expression is handed to a helper or
  given as a prop (`AotPreservesMeaning`). `escape_attr_value` is the one escape that forgets `\r`. A
  looser slice may still be legal JavaScript, with another meaning.
- A branch loses its parentheses: `{ok ? (a, b) : c}` calls `__esc(a, b)`, which escapes `a`. It means
  what was written in every world exactly when the first value is the last one (`CommaBranchUnread`,
  `CommaShows`).
- A raw `innerHTML` value that is itself a chain of `+` and `-` is legal text and is regrouped. The output
  is as meant exactly when the chain is a single operand, or has no `-` and a string among its first two
  operands (`AdditiveValue`): `{n + 1}` and `{n + 1 + " items"}` join the digits, and `{n - 1}` turns
  the whole start tag into `NaN` (`DifferenceLosesTag`).
- Only returns of JSX are guards, and a return the compiler does not compile is ignored. Where the JSX
  starts with a tag, guards, a single JSX return and a single returned conditional are compiled to what
  the body renders exactly in the runs that leave by a compiled return (`GuardsRightExactlyWhen`,
  `SingleReturnRightExactlyWhen`, `ChoiceRightExactlyWhen`); a bare return before empty fragments does
  not show (`EmptyFragmentHides`). `if (ok) return <A/>; return null;` always renders `A`, and of two
  returned conditionals the second is dropped (`SecondChoiceIsDropped`). Of nested `if`s only the
  outermost test is kept (`NestedGuardIsFlattened`); a loose guard condition is copied bare
  (`GuardsPreserveMeaning`).
- The two back ends print the same string if and only if no valueless attribute occurs (` hidden`
  against ` hidden=""`), no attribute value holds `&` or `"`, no text outside script and style holds
  `&`, `<`, `>` or `"`, and no carriage return survives cleaning (`BackEndsAgree`).
- A hydration id offered to children is lost exactly when the first child that may take it is a fragment
  without elements, or none may take it (`HydrationIdLost`); `AotOutputIsNested` and `BodyOutputIsNested` say
  when it is printed, which is once or never.
- A JSX node of a prop value is transformed by both walkers if and only if the value stands below a
  `.map` call, below none that was met inside JSX, and the node is behind a function
  (`DoubledExactlyWhen`).
- A return that is the braceless body of a loop is marked braceless only below an `if` arm; elsewhere
  its text does not parse, or, for a bare return, returns after the loop instead of inside it
  (`LoopReturnBreaks`). `return a, b;` does not parse as the value of a `const` either, and `return a,
  b = c;` returns `a` and assigns nothing (`CommaReturnBreaks`, `CommaReturnsFirst`). Every other body
  is overwritten in place (`CleanListIffTextSafe`). A body that runs off its end leaves its
  frame on the stack (`FrameDiscipline`).
- A return's text pops its frame before the callbacks run, so a failing callback is caught by a handler
  around the return, and a `finally` runs after the callbacks. One `try` statement of steps and returns
  runs as written in every world if and only if nothing returns under a handler, nor ahead of a
  `finally` in which something happens (`TryRunsAlikeExactlyWhen`). Otherwise the caller's frame can be
  flushed (`FinallyReturnTakesParentFrame`, `CatchReturnTakesParentFrame`). For whole bodies the
  predicate `Disciplined` is sufficient, not necessary: a return that is never reached does no harm.
- A flattened style tree lists a level's declarations before everything nested in it. In every place, that
  is under the same at-rules and the same resolved selector, they keep the order they were written in
  exactly when none follows something nested that comes back to its place (`OrderKeptExactlyWhen`,
  `ComingBackSwaps`).
- A read of a query records its first name that is not `data` or `items`, also one that is no entity when
  more follows: `q.error.message` records a field `error` (`ReadRecords`). An optional read records its
  beginning as well (`OptionalReadRecords`). A list below two relations counts as the list of all entities
  (`ListCallRecords`), and reads of the query inside a callback over its own list are missed
  (`QueryInCallbackIsMissed`).
- Of several `ref`s or `innerHTML`s of an element the last one is emitted (`LastRefKept`, `LastHtmlKept`). Of
  several attributes of one name a reactive one wins at the first change, wherever it stands (`PlaceShows`).
- The callback tracker of field selection does not notice a name declared in a block of a `try`
  statement. No renaming of shadowing bindings changes the record of a query variable if and only if
  nothing is read of its name in such a block inside a callback whose parameter has the query's name
  too, apart from what makes an opaque record opaque again (`RecordKeptExactlyWhen`,
  `TryBlockIsConfused`).
- Substitutions are applied in the order of an unordered map. All orders agree on every text if and only
  if no replacement mentions the name of another entry (`OrderIrrelevantExactlyWhen`).

## Model

| member | source | states |
|---|---|---|
| EditQueue.MagicString.Display | native/vertz-compiler-core/src/magic_string.rs:225-340 | the rendered file is, for every in-bounds queue, the concatenation over all positions of the surviving inserts, zero-width texts, the one surviving overwrite and the original character unless covered |
| EditQueue.MagicString.GetTransformedSlice | native/vertz-compiler-core/src/magic_string.rs:95-222 | the slice renderer computes the same meaning restricted to two positions, with inserts at both ends and without zero-width overwrites there |
| EditQueue.MagicString.Overwrite | native/vertz-compiler-core/src/magic_string.rs:33-39 | queues the edit at the end and changes nothing else |
| EditQueue.MagicString.PrependLeft | native/vertz-compiler-core/src/magic_string.rs:42-47 | queues the insert at the end and changes nothing else |
| EditQueue.MagicString.AppendRight | native/vertz-compiler-core/src/magic_string.rs:50-55 | queues the insert at the end and changes nothing else |
| EditSweep.SweepIsMeaning | native/vertz-compiler-core/src/magic_string.rs:150-222 | sweeping the sorted events with one cursor gives the positional meaning, whatever overlaps or nests |
| EditMeaning.SlicesCompose | native/vertz-compiler-core/src/magic_string.rs:95-222 | slice(a,m) followed by slice(m,b) is slice(a,b) exactly when doubled inserts at m make up for zero-width texts lost there |
| EditMeaning.WholeIsSlice | native/vertz-compiler-core/src/magic_string.rs:225-340 | the slice of everything is the whole rendering exactly when no zero-width overwrite at an end survives |
| EditMeaning.QueueOrderIsLocal | native/vertz-compiler-core/src/magic_string.rs:147-180 | both renderings depend only on the relative order of edits that share a position and a kind |
| EditOrder.ReceivedInOrder | native/vertz-compiler-core/src/magic_string.rs:150-180 | outside overwrites a position receives the texts inserted before it, then those inserted after it, then the zero-width overwrites and the first replacing one, each kind in queue order |
| EditOrder.EditsAtOnePosition | native/vertz-compiler-core/src/magic_string.rs:269-340 | a file with inserts at one position and overwrites of one range there, queued in any order, reads: the text before, the inserts before, the inserts after, the first replacement, the rest |
| EditOrder.BeforeStandsFirst | native/vertz-compiler-core/src/magic_string.rs:269-296 | for every text and position, a text inserted before it stands ahead of one inserted after it, whichever was queued first |
| EditGluing.SliceWithTransformedJsx | native/vertz-compiler-core/src/jsx_transformer.rs:2113-2150 | the loop over gaps and transformed nodes produces the gaps and the new texts in order |
| EditGluing.GluingIsSlicing | native/vertz-compiler-core/src/jsx_transformer.rs:2113-2150 | gluing equals queuing the new texts as overwrites and slicing once, when no edit disturbs a node's boundaries |
| AotAttributes.EscapedStringReads | native/vertz-compiler-core/src/aot_string_transformer.rs:1725-1730 | text escaped for a string literal decodes back to itself, per section 12.9.4 of ECMA-262 |
| AotAttributes.EscapedAttrReads | native/vertz-compiler-core/src/aot_string_transformer.rs:1732-1737 | an escaped attribute value decodes back to itself exactly when it has no carriage return |
| AotAttributes.AttrReads | native/vertz-compiler-core/src/aot_string_transformer.rs:905-944 | an attribute fragment read inside an open literal ends inside one and contributes exactly its rendering, if and only if it is readable |
| AotAttributes.AttrListReads | native/vertz-compiler-core/src/aot_string_transformer.rs:871-903 | the static and the spliced attributes of a tag, as lists, contribute their renderings |
| AotAttributes.OpenTagReads | native/vertz-compiler-core/src/aot_string_transformer.rs:432-482 | the whole start tag, attributes and hydration attribute included, starts and ends outside literals and evaluates to the rendered tag |
| AotCorrect.ElementReads | native/vertz-compiler-core/src/aot_string_transformer.rs:432-472 | element text reads as its own chain of operands, every slice one operand, exactly when the element is readable, and then evaluates to the reference rendering in every scope |
| AotCorrect.ComponentReads | native/vertz-compiler-core/src/aot_string_transformer.rs:535-597 | a component reference passes its props in order, and its children unless none renders anything |
| AotCorrect.FragmentReads | native/vertz-compiler-core/src/aot_string_transformer.rs:484-533 | fragment text evaluates to its children's renderings in order, with empty parts dropped |
| AotCorrect.ChildReads | native/vertz-compiler-core/src/aot_string_transformer.rs:623-649 | text, holes, elements, fragments and spreads among children evaluate to their renderings |
| AotCorrect.HoleReads | native/vertz-compiler-core/src/aot_string_transformer.rs:651-702 | a hole evaluates to its escaped value, with child markers when reactive, or to the conditional or list it holds |
| AotCorrect.TernaryReads | native/vertz-compiler-core/src/aot_string_transformer.rs:704-718 | a conditional, nested to any depth, evaluates to the taken branch between markers |
| AotCorrect.AndReads | native/vertz-compiler-core/src/aot_string_transformer.rs:720-730 | `&&` evaluates to its right side between markers, or to nothing between them when the left is falsy |
| AotCorrect.MapReads | native/vertz-compiler-core/src/aot_string_transformer.rs:732-821 | `.map` evaluates to one rendering per item with the parameter, or `_item` where there is none, bound, `?.map` over null to none, between list markers |
| AotCorrect.NodeReads | native/vertz-compiler-core/src/aot_string_transformer.rs:843-869 | branch expressions evaluate to their renderings through any nesting of parentheses, conditionals and JSX |
| AotGuards.AotPreservesMeaning | native/vertz-compiler-core/src/aot_string_transformer.rs:411-430 | the compiled root reads, whole, as the chain of operands that was written exactly when the tree is readable, and then evaluates to the reference rendering for every scope |
| AotGuards.ConditionalRootPreservesMeaning | native/vertz-compiler-core/src/aot_string_transformer.rs:1245-1275 | the text of a component that returns a conditional or `&&` reads as it was written exactly when its branches are readable, and evaluates to the taken branch between markers |
| AotGuards.GuardBodyRuns | native/vertz-compiler-core/src/aot_string_transformer.rs:1278-1332 | the collected guards choose the JSX that running the body returns, else-branches included |
| AotGuards.GuardsPreserveMeaning | native/vertz-compiler-core/src/aot_string_transformer.rs:1278-1390 | the nested conditional of a guard body reads as it was written exactly when readable, and evaluates to the JSX the body returns wherever the body does not leave by a return without JSX |
| AotGuards.GuardsChooseSeen | native/vertz-compiler-core/src/aot_string_transformer.rs:1278-1332 | the chosen JSX is what the body renders once returns without JSX are dropped, and what it renders itself unless it leaves by one of them |
| AotGuards.SeenRuns | native/vertz-compiler-core/src/aot_string_transformer.rs:201-213 | any body runs the same with its returns without JSX dropped, up to the first of them it would take |
| AotGuards.EarlyReturnIsIgnored | native/vertz-compiler-core/src/aot_string_transformer.rs:1278-1332 | a body with an early bare return compiles to its last JSX even where running it renders nothing |
| AotGuards.NestedGuardIsFlattened | native/vertz-compiler-core/src/aot_string_transformer.rs:1334-1357 | a JSX return below two `if`s is guarded by the outer test only |
| AotBodies.GuardsRightExactlyWhen | native/vertz-compiler-core/src/aot_string_transformer.rs:201-250 | where every JSX return starts with a tag, the guarded JSX that is chosen is what running the body renders exactly when the run does not leave by a return without JSX; such a return renders nothing, its escaped value, or its conditional |
| AotBodies.SingleReturnRightExactlyWhen | native/vertz-compiler-core/src/aot_string_transformer.rs:250-262 | a body with one JSX return, wherever it stands, is compiled to it, which is what the body renders exactly in the runs that leave by it |
| AotBodies.ChoiceRightExactlyWhen | native/vertz-compiler-core/src/aot_string_transformer.rs:256-292 | a body with one returned conditional or `&&` and no JSX return is compiled to it, which is what the body renders exactly in the runs that leave by it |
| AotBodies.SecondChoiceIsDropped | native/vertz-compiler-core/src/aot_string_transformer.rs:256-292 | of two returned conditionals the first is compiled and the second is what may be rendered |
| AotBodies.EmptyFragmentHides | native/vertz-compiler-core/src/aot_string_transformer.rs:1278-1332 | a fragment that renders nothing hides that the body left by a bare return |
| AotNesting.AotOutputIsNested | native/vertz-compiler-core/src/aot_string_transformer.rs:432-533 | the output is spelt by the tree's own word, a token for every tag and marker and characters only for text, escaped values, raw HTML and component output; the word nests (void elements without end tag) and holds the hydration id once or never, as the root decides |
| AotNesting.BodyOutputIsNested | native/vertz-compiler-core/src/aot_string_transformer.rs:215-292 | the same for every compiled body: a single root, guarded returns between their markers, or a returned conditional; the id is printed once if the chosen return is the unguarded one and hands it on, and never otherwise |
| AotNesting.ElementIsWord | native/vertz-compiler-core/src/aot_string_transformer.rs:432-472 | an element's rendering is nested and carries the id on its own tag and nowhere else, never under a component tag |
| AotNesting.NodeIsWord | native/vertz-compiler-core/src/aot_string_transformer.rs:704-730 | markers around conditionals nest, and no id occurs under an expression |
| AotNesting.HydrationIdLost | native/vertz-compiler-core/src/aot_string_transformer.rs:501-511 | children rendered with an offered id equal those rendered without exactly when the id does not arrive: the first child that may take it is a fragment without elements, or there is none |
| AotTables.EndTags | native/vertz-compiler-core/src/aot_string_transformer.rs:53-72 | the fourteen void elements, written out, are their start tag; every other element has an end tag |
| AotTables.UnescapedExactlyWhen | native/vertz-compiler-core/src/aot_string_transformer.rs:651-702 | a value is printed with `String` directly inside `script` and `style` and through `__esc` inside every other element |
| AotTables.ElementOpens | native/vertz-compiler-core/src/aot_string_transformer.rs:432-452 | an element whose name has no upper-case initial begins with its tag |
| AotTables.PrintedExactlyWhen | native/vertz-compiler-core/src/aot_string_transformer.rs:905-944 | a text attribute is printed, under its own name but for `className` and `htmlFor`, unless it is a handler or one of four names |
| AotTables.OnOrOffExactlyWhen | native/vertz-compiler-core/src/aot_string_transformer.rs:78-108 | an attribute is printed bare for a truthy value and left out otherwise exactly when its name is, in any mixture of cases, one of twenty-five |
| AotTables.ValuePrinted | native/vertz-compiler-core/src/aot_string_transformer.rs:905-944 | a given value goes through the helper for styles, for spreads or for other attributes |
| AotTables.HydrationGoesToFirst | native/vertz-compiler-core/src/aot_string_transformer.rs:495-524 | the id reaches the first DOM element or fragment among the children, past text, values and components, and no other child |
| AotTables.ListMarkers | native/vertz-compiler-core/src/aot_string_transformer.rs:759-821 | a list stands between `list` comments; each item is bound to the callback's parameter, or to `_item` where it names none, and `?.` over null gives no items |
| AotTables.DangerousWins | native/vertz-compiler-core/src/aot_string_transformer.rs:454-471 | the first `dangerouslySetInnerHTML` with a value decides the content, wherever `innerHTML` stands |
| AotTables.InnerHtmlDecides | native/vertz-compiler-core/src/aot_string_transformer.rs:946-963 | without one the first `innerHTML` with a value does |
| AotTables.ConditionalMarkers | native/vertz-compiler-core/src/aot_string_transformer.rs:704-718 | a conditional prints its taken branch between `conditional` comments |
| AotTables.ValueMarkers | native/vertz-compiler-core/src/aot_string_transformer.rs:651-702 | a value is put between `child` comments exactly when it is reactive where something is |
| AotAdditive.AdditiveValue | native/vertz-compiler-core/src/aot_string_transformer.rs:454-471 | the text emitted around a raw chain of `+` and `-`, of any length, means what was written exactly when the chain is one operand, or has no `-` and a string among its first two operands |
| AotAdditive.DecimalsDoNotJoin | native/vertz-compiler-core/src/aot_string_transformer.rs:454-471 | two or more integers side by side never spell their sum |
| AotAdditive.DifferenceLosesTag | native/vertz-compiler-core/src/aot_string_transformer.rs:454-471 | `n - 1` as raw HTML turns the start tag into `NaN`, and `n + 1 + " items"` joins the digits |
| AotAdditive.RawValueIsBare | native/vertz-compiler-core/src/aot_string_transformer.rs:946-985 | a raw value that is not tight stands bare between two `+` signs, and the element's text does not read as the chain that was written |
| AotAdditive.CommaBranchUnread | native/vertz-compiler-core/src/aot_string_transformer.rs:843-869 | a parenthesised comma expression in a branch is emitted without its parentheses, as several arguments, and does not read as what was written |
| AotAdditive.CommaShows | packages/ui-server/src/ssr-aot-runtime.ts:60-70 | passing the values of a comma expression as arguments means the same in every world exactly when the first value is the last one |
| JsxWhitespace.CleanJsxTextServer | native/vertz-compiler-core/src/aot_string_transformer.rs:1701-1723 | the server's loop computes the cleaned lines joined by single spaces |
| JsxWhitespace.CleanJsxTextClient | native/vertz-compiler-core/src/jsx_transformer.rs:2563-2587 | the client's loop computes the same over normalised line breaks |
| JsxWhitespace.CleaningIsIdempotent | native/vertz-compiler-core/src/aot_string_transformer.rs:1701-1723 | cleaning twice is cleaning once, for both cleaners |
| JsxWhitespace.CleanersAgree | native/vertz-compiler-core/src/jsx_transformer.rs:2563-2587 | the two cleaners agree on a text exactly when no carriage return survives the server's |
| JsxWhitespace.OrdinaryTextAgrees | native/vertz-compiler-core/src/jsx_transformer.rs:2563-2587 | they agree on every text in which each CR is followed by LF |
| JsxLines.LinesBecomeWords | native/vertz-compiler-core/src/jsx_transformer.rs:2563-2587 | both cleaners keep the words of every line of a text of several lines, one space between the words of two lines, and drop blank lines, indentation and trailing space |
| JsxLines.WordsOnLines | native/vertz-compiler-core/src/aot_string_transformer.rs:1701-1723 | a word, a line break, indentation and a word clean to the words with one space between them |
| ClientCompiler.Codegen.EmitElement | native/vertz-compiler-core/src/jsx_transformer.rs:1194-1287 | the generator, bumping its counter, emits exactly the program of the element |
| ClientCompiler.Codegen.EmitFragment | native/vertz-compiler-core/src/jsx_transformer.rs:1532-1562 | the same for fragments |
| ClientCompiler.Codegen.EmitChild | native/vertz-compiler-core/src/jsx_transformer.rs:1735-1864 | the same for a child, with blank text dropped |
| ClientCompiler.Codegen.ProcessAttributes | native/vertz-compiler-core/src/jsx_transformer.rs:1564-1733 | one pass sorts the attribute statements into immediate ones, property assignments and the ref |
| ClientRun.QuotedReadsBack | native/vertz-compiler-core/src/jsx_transformer.rs:2525-2533 | a quoted literal denotes the string it was made from |
| ClientRun.SortedByRank | native/vertz-compiler-core/src/jsx_transformer.rs:69-123 | the statements deferred behind the children are exactly the property assignments, then the ref |
| ClientRun.SortedPerforms | native/vertz-compiler-core/src/jsx_transformer.rs:1194-1287 | running the immediate statements sets exactly the fixed attributes, later values winning in place |
| ClientLive.PlaceShows | native/vertz-compiler-core/src/jsx_transformer.rs:1564-1702 | after the program has run and after any changes, every attribute and property shows what the attributes at its place say in source order, or the present value of the last reactive one |
| ClientLive.ExpressionShows | native/vertz-compiler-core/src/jsx_transformer.rs:1646-1702 | an expression alone at its place shows its present value if it reads reactive state, and its first value otherwise |
| ClientLive.FixedShows | native/vertz-compiler-core/src/jsx_transformer.rs:1571-1598 | a text, or no value, shows for ever under the name the compiler gives it |
| ClientLive.NothingElseShows | native/vertz-compiler-core/src/jsx_transformer.rs:1564-1732 | nothing shows where no attribute belongs |
| ClientLive.HandlersBound | native/vertz-compiler-core/src/jsx_transformer.rs:1618-1642 | the program binds exactly the handlers and spreads of the source, in source order, events in lower case |
| ClientLive.LastRefKept | native/vertz-compiler-core/src/jsx_transformer.rs:1228-1240 | only the last `ref` is emitted |
| ClientLive.LastHtmlKept | native/vertz-compiler-core/src/jsx_transformer.rs:111-148 | only the last `innerHTML` is emitted, and one without a value takes an earlier one back |
| ClientBuild.ElementBuilds | native/vertz-compiler-core/src/jsx_transformer.rs:1194-1287 | running the program of any tree builds exactly that tree as a new node; old nodes and the children stack are unchanged, and every node's events come in the order creation, attributes, children, properties, ref |
| ClientBuild.FragmentBuilds | native/vertz-compiler-core/src/jsx_transformer.rs:1532-1562 | a fragment's program builds a fragment holding exactly its children |
| ClientBuild.ChildrenBuild | native/vertz-compiler-core/src/jsx_transformer.rs:1735-1864 | the children statements append exactly the children's trees, in order, to their parent |
| ClientBuild.ElementNamesOnce | native/vertz-compiler-core/src/jsx_transformer.rs:2519-2523 | every generated variable between the first and the next free number is declared exactly once, in order |
| BackEnds.SameOutput | native/vertz-compiler-core/src/aot_string_transformer.rs:432-472 | the serialised tree equals the server rendering exactly when `PrintsSame` |
| BackEnds.BackEndsAgree | native/vertz-compiler-core/src/jsx_transformer.rs:1194-1287 | for every static tree, serialising the DOM the client program built gives what the server expression evaluates to, exactly when `PrintsSame` |
| BackEnds.BooleanAttributeDiffers | native/vertz-compiler-core/src/aot_string_transformer.rs:905-944 | a valueless attribute is printed differently by the two |
| BackEnds.AmpersandDiffers | native/vertz-compiler-core/src/aot_string_transformer.rs:623-649 | text with `&` is escaped by the DOM serialiser and copied by the server expression |
| JsxWalkers.JsxCollector.Visit | native/vertz-compiler-core/src/jsx_transformer.rs:410-530 | the top-level walker, saving and restoring its flags, collects exactly `Top` |
| JsxWalkers.JsxInSpanCollector.Visit | native/vertz-compiler-core/src/jsx_transformer.rs:2165-2290 | the inline walker, counting functions and `.map` calls, collects exactly `Picked` |
| JsxWalkers.TransformedExactlyOnce | native/vertz-compiler-core/src/jsx_transformer.rs:2152-2290 | when every `.map` around a prop value was met inside JSX, each JSX node of the value lies in exactly one outermost node, which exactly one of the walkers takes |
| JsxWalkers.DoubledExactlyWhen | native/vertz-compiler-core/src/jsx_transformer.rs:2240-2263 | otherwise a node is taken twice exactly when the value is below a `.map` met outside JSX, below none met inside, and holds JSX behind a function |
| JsxWalkers.InlineReadyToGlue | native/vertz-compiler-core/src/jsx_transformer.rs:2165-2179 | the picked nodes are in source order, disjoint and inside the value |
| MountFrames.ReturnCollector.VisitStatement | native/vertz-compiler-core/src/mount_frame_transformer.rs:92-219 | the visitor, saving and restoring its mark, collects the returns of the body in order and leaves nested functions alone |
| MountFrames.CleanListIffTextSafe | native/vertz-compiler-core/src/mount_frame_transformer.rs:37-80 | the overwritten body parses with every return's text in place exactly when no return is a loop's braceless body outside an `if` arm and none returns a bare comma expression |
| MountFrames.CommaReturnBreaks | native/vertz-compiler-core/src/mount_frame_transformer.rs:44-63 | a returned comma expression does not parse as the value of a declaration, or is read as further declarations |
| MountFrames.ResultNamesIn | native/vertz-compiler-core/src/mount_frame_transformer.rs:37-40 | no two returns share a result name |
| MountFrames.LoopReturnBreaks | native/vertz-compiler-core/src/mount_frame_transformer.rs:195-218 | the two ways a braceless loop return goes wrong |
| MountFrameRun.ReturnMatches | native/vertz-compiler-core/src/mount_frame_transformer.rs:37-80 | the text of one return settles and pops its frame once, whatever the argument and the callbacks do |
| MountFrameRun.StmtMatches | native/vertz-compiler-core/src/mount_frame_transformer.rs:24-89 | statement by statement the compiled run simulates the stackless reference |
| MountFrameRun.CallMatches | native/vertz-compiler-core/src/mount_frame_transformer.rs:24-89 | nested component calls keep the caller's frame and callbacks |
| MountFrameRun.FrameDiscipline | native/vertz-compiler-core/src/mount_frame_transformer.rs:24-89 | in every run of a framed component that returns or throws the stack is as before and result, exception, store and queue are the reference's; one that runs off its end leaves its frame |
| MountFrameRun.CommaReturnsFirst | native/vertz-compiler-core/src/mount_frame_transformer.rs:44-63 | `return a, b = c` compiled returns the first value and does not assign |
| MountFrameRun.ArrowIsReturn | native/vertz-compiler-core/src/mount_frame_transformer.rs:226-245 | an arrow's expression body is wrapped exactly as a body that returns the expression |
| MountFrameRun.FinallyReturnTakesParentFrame | native/vertz-compiler-core/src/mount_frame_transformer.rs:37-80 | two returns flushed in one run take the caller's frame as well |
| MountFrameOrder.FrameRunsInOrder | packages/ui/src/component/lifecycle.ts:43-67 | settling a frame runs all its callbacks once each in order of registration, whichever fail, and throws the first error |
| MountFrameOrder.MountsRunAfterReturn | packages/ui/src/component/lifecycle.ts:43-67 | a compiled component runs its returned expression first and then its callbacks in order, and leaves the caller's frame alone |
| MountFrameTry.TryRunsAlikeExactlyWhen | native/vertz-compiler-core/src/mount_frame_transformer.rs:37-80 | one `try` statement of steps and returns runs as the source says, in every world and above any frames, exactly when nothing returns under a handler nor ahead of a `finally` in which something happens |
| MountFrameTry.CatchReturnTakesParentFrame | packages/ui/src/component/lifecycle.ts:43-67 | a return in the handler of a `try` block that returned over a failing mount callback settles the caller's frame |
| MountFrameTry.ReturnThrows | packages/ui/src/component/lifecycle.ts:43-67 | a return whose callback fails has popped its frame when it throws |
| InlineSubstitution.WordBoundaryReplace | native/vertz-compiler-core/src/jsx_transformer.rs:2456-2494 | the scanning loop replaces exactly the maximal identifier runs equal to the name |
| InlineSubstitution.ApplyInlineSubs | native/vertz-compiler-core/src/jsx_transformer.rs:2444-2454 | the loop applies the parenthesised replacements one after another, in the order of the map's entries |
| InlineSubstitution.NameBecomesExpression | native/vertz-compiler-core/src/jsx_transformer.rs:2444-2454 | a name that stands alone becomes its expression in parentheses, and what is around it what it would become alone |
| SubstitutionOrder.InTurnIsAtOnce | native/vertz-compiler-core/src/jsx_transformer.rs:2444-2454 | applying the substitutions one by one is one simultaneous substitution when no replacement mentions the name of another entry |
| SubstitutionOrder.AnyOrder | native/vertz-compiler-core/src/jsx_transformer.rs:2444-2454 | the order of the map's entries does not matter then |
| SubstitutionOrder.OrderIrrelevantExactlyWhen | native/vertz-compiler-core/src/jsx_transformer.rs:2444-2454 | over all texts, all orders of the entries agree exactly when no replacement mentions the name of another entry |
| SubstitutionOrder.OrderCanMatter | native/vertz-compiler-core/src/jsx_transformer.rs:2444-2454 | two entries and a text on which the two orders differ |
| StyleTree.BuildStyleBlockRules | native/vertz-compiler-core/src/css_transform.rs:338-373 | the one-pass loop builds the level's rule followed by the nested rules |
| StyleTree.BuildConserves | native/vertz-compiler-core/src/css_transform.rs:338-373 | every declaration comes out exactly once under its stack of at-rules and its resolved selector |
| StyleOrder.OrderKeptExactlyWhen | native/vertz-compiler-core/src/css_transform.rs:338-373 | for every at-rule stack and selector the output lists the declarations in the order they were written in exactly when no declaration follows, at its level, something nested that comes back to the same place |
| StyleOrder.ComingBackSwaps | native/vertz-compiler-core/src/css_transform.rs:338-373 | a block nested under `&` before a declaration comes out behind it |
| StyleTree.SelectorsResolve | native/vertz-compiler-core/src/css_transform.rs:338-373 | no `&` is left in any selector |
| StyleNames.AtKeyWraps | native/vertz-compiler-core/src/css_transform.rs:353-358 | a key that starts with `@` wraps the rules of the same selector |
| StyleNames.AmpersandsResolve | native/vertz-compiler-core/src/css_transform.rs:359-362 | every `&` of a key stands for the selector above, and nothing else changes |
| StyleTree.ExtractLosesNothing | native/vertz-compiler-core/src/css_transform.rs:158-250 | a block judged static loses no property at any depth |
| StyleTree.StaticBlockFlattens | native/vertz-compiler-core/src/css_transform.rs:158-373 | all of this together, and at least one rule |
| StyleTree.Djb2Hash | native/vertz-compiler-core/src/css_transform.rs:285-291 | signed shifting and adding with wrap-around is a polynomial in 33 modulo 2^32 |
| StyleNames.OneByteMatters | native/vertz-compiler-core/src/css_transform.rs:285-291 | names that differ in one byte never have the same hash |
| HelperScan.StripComments | native/vertz-compiler-core/src/import_injection.rs:168-236 | the scanner removes comments, copies regexes and blanks string bodies, part by part |
| HelperScan.RegexStarts | native/vertz-compiler-core/src/import_injection.rs:242-304 | the two backward loops decide by the last character or keyword before the slash |
| HelperScan.SkipRegexLiteral | native/vertz-compiler-core/src/import_injection.rs:317-353 | the loop finds the regex's end, character classes, escapes and flags included |
| HelperScan.StripIgnoresBodies | native/vertz-compiler-core/src/import_injection.rs:168-236 | sources that differ only inside strings and templates strip to the same text |
| HelperScan.DetectionIgnoresBodies | native/vertz-compiler-core/src/import_injection.rs:480-520 | whether a helper is detected does not depend on string and template bodies |
| HelperScan.ShorthandMethod | native/vertz-compiler-core/src/import_injection.rs:399-421 | true exactly when the parenthesis is matched and a brace follows |
| HelperScan.ContainsStandaloneCall | native/vertz-compiler-core/src/import_injection.rs:361-393 | true exactly when some occurrence passes every context check; the jumps miss none |
| HelperParts.StringEnds | native/vertz-compiler-core/src/import_injection.rs:206-229 | for every body in which quotes and backslashes are escaped, the part at the opening quote ends just past the closing quote, whatever follows, and only its line breaks are kept |
| HelperParts.EscapedTextEnds | native/vertz-compiler-core/src/import_injection.rs:206-229 | so it does for every text once it is escaped |
| HelperParts.BlockCommentEnds | native/vertz-compiler-core/src/import_injection.rs:184-196 | a block comment ends with the first `*` `/` and leaves nothing |
| HelperParts.LineCommentEnds | native/vertz-compiler-core/src/import_injection.rs:175-183 | a line comment ends before the line break and leaves nothing |
| HelperParts.RegexEnds | native/vertz-compiler-core/src/import_injection.rs:317-353 | a regular expression with escapes and classes ends behind its flags and is copied as it stands |
| HelperParts.RegexBehindWord | native/vertz-compiler-core/src/import_injection.rs:242-304 | behind a word a slash begins a regular expression exactly behind fourteen keywords, written out |
| HelperParts.RegexBehindSign | native/vertz-compiler-core/src/import_injection.rs:242-304 | behind another character it does unless that closes a group, a list or a block |
| HelperParts.CallExactlyWhen | native/vertz-compiler-core/src/import_injection.rs:361-393 | a name with paired parentheses is a call exactly when it is no part of a name or chain, no brace follows and it is no definition |
| HelperParts.MethodBehindWord | native/vertz-compiler-core/src/import_injection.rs:425-469 | behind a word it is a definition exactly behind four keywords |
| HelperParts.MethodBehindStar | native/vertz-compiler-core/src/import_injection.rs:425-469 | behind a star it is one unless the star follows an operand |
| FieldTracking.BuildPropertyChain | native/vertz-compiler-core/src/field_selection.rs:1312-1358 | the loop builds the chain of names from the root outwards |
| FieldTracking.FieldTracker.TrackFieldAccess | native/vertz-compiler-core/src/field_selection.rs:388-1250 | the walker pushes exactly what `Track` records, callbacks over items included |
| FieldTracking.FieldTracker.TrackCallback | native/vertz-compiler-core/src/field_selection.rs:1667-2168 | the callback walker pushes exactly what `ItemAccess` records |
| FieldPaths.ReadRecords | native/vertz-compiler-core/src/field_selection.rs:1374-1409 | a read records the first name that is not `data` or `items`, with the entity names behind it as its path; nothing if that name is last and no entity |
| FieldPaths.OptionalReadRecords | native/vertz-compiler-core/src/field_selection.rs:1138-1250 | an optional read records the same and what its beginning records |
| FieldPaths.ListCallRecords | native/vertz-compiler-core/src/field_selection.rs:846-945 | a call over a list of the query records what its callback reads of an item, or the relation with those reads as paths below it |
| FieldPaths.ListLoopRecords | native/vertz-compiler-core/src/field_selection.rs:597-665 | so does a loop over one |
| FieldPaths.ItemReadRecords | native/vertz-compiler-core/src/field_selection.rs:1894-2168 | a read of an item records its first property, with all that follow as the path |
| FieldPaths.QueryInCallbackIsMissed | native/vertz-compiler-core/src/field_selection.rs:860-925 | a read of the query itself inside such a callback is not recorded |
| FieldPaths.FieldRecordedExactlyWhen | native/vertz-compiler-core/src/field_selection.rs:388-1250 | a field is recorded exactly when the tracker comes past a read of it, or a list whose record holds it |
| FieldPaths.OpaqueExactlyWhen | native/vertz-compiler-core/src/field_selection.rs:918-941 | the record is opaque exactly when the tracker comes past a place that hands the data on as a whole, or an opaque list |
| FieldPaths.ItemFieldRecordedExactlyWhen | native/vertz-compiler-core/src/field_selection.rs:1667-2168 | a callback records a field of its item exactly when the tracker comes past a read whose first property it is |
| FieldPaths.BindsExactlyWhen | native/vertz-compiler-core/src/field_selection.rs:1411-1556 | which kinds of scope hide a name, by what they declare |
| FieldWitness.RecordKeptExactlyWhen | native/vertz-compiler-core/src/field_selection.rs:388-402 | no renaming of shadowing bindings to fresh names, in any combination and nesting, changes a field, path or opaque flag recorded for the query, exactly when nothing is read in a confusing block that would show |
| FieldWitness.TryBlockIsConfused | native/vertz-compiler-core/src/field_selection.rs:1828-1858 | the callback walker misses a declaration in a `try` block, on a stated program |
| FieldConfusion.KeptWhenClear | native/vertz-compiler-core/src/field_selection.rs:388-402 | where reading the confusing blocks adds nothing, every renaming leaves the record as it was |
| FieldConfusion.AllTrackKept | native/vertz-compiler-core/src/field_selection.rs:388-402 | renaming leaves alone what is recorded without confusing blocks, and never adds to the most that could be |
| FieldConfusion.AllItemsBetween | native/vertz-compiler-core/src/field_selection.rs:1894-2168 | the callback walker records at least what is read outside confusing blocks and at most what any renaming could bring out |
| FieldConfusion.ItemsMove | native/vertz-compiler-core/src/field_selection.rs:1894-2168 | what a callback clearly reads of its parameter it reads of the renamed parameter |
| FieldConfusion.RenamedScopeUntracked | native/vertz-compiler-core/src/field_selection.rs:1539-1556 | a renamed shadowing scope records nothing for the query, as before |

## Left out

- Parsing, source maps, diagnostics, and the passes for signals, props, mutations and reactivity: which names are reactive is a parameter of every expression.
- Tier classification, query-cache replacement and the emission of the enclosing functions of the server back end: easy members around the modelled expression compiler.
- The `holes` set threaded through the server compiler, and member-expression component tags.
- EditQueue.MagicString.Display: positions are characters, not UTF-8 bytes, and every edit lies in bounds; out-of-range slicing panics in the original.
- AotGuards.AotPreservesMeaning: its parser facts say that receivers of calls bind tightest and that only `Other` is a comma expression. Beyond what the parser guarantees, `ParsedExpr` asks that callbacks that yield JSX yield it from their first statement. The emitted callback drops further and default parameters and puts `_item` for a destructured one, and names those bind are not modelled. Names in slices are looked up in the scope, so capture by generated parameters is not modelled.
- AotAdditive.AdditiveValue: primitive values whose numbers are integers or `NaN`; fractions, exponents, big integers, symbols, objects and user-defined conversions are not modelled.
- AotBodies.GuardsRightExactlyWhen: a component, or a fragment that starts with text or a value, may render what another return renders, so for those only the one half is stated, in `GuardsChooseSeen`; JSX inside the test of a returned conditional is not modelled.
- AotGuards.GuardsPreserveMeaning: bodies are statements without JSX returns and top-level `if`s with at most one JSX return per branch, possibly in blocks, before a final JSX return; `NestedGuardIsFlattened` shows why a return below two `if`s is outside. Loops, `switch` and `try` around JSX returns are not modelled.
- ClientBuild.ElementBuilds: event handlers, properties, refs, spreads, inner HTML and reactive attributes are recorded in order but their effect on the node is a matter of the runtime; the tree speaks of attributes with fixed values. Conditionals, lists and components in client children are not modelled. The `u32` counter does not overflow.
- ClientLive.PlaceShows: what a spread writes, event handlers, refs and inner HTML are a matter of the runtime and show nowhere; the first run of an effect is not deferred as it is while hydrating; every effect runs again at every change, also those whose value is the same.
- AotTables.OnOrOffExactlyWhen: letters are ASCII; lower-casing in the original covers all of Unicode.
- BackEnds.SameOutput: static trees only, as its predicate `IsStatic` spells out: an element that repeats an attribute name is excluded (`DistinctNames`: the DOM keeps one of them, the server prints all), and so is an element named `fragment`, which the serialiser prints without tags. The server rendering compared is the one without a hydration id.
- BackEnds.BackEndsAgree: the same static trees with distinct attribute names, and no hydration id, which only the server prints.
- MountFrameRun.CommaReturnsFirst: reading a name before the declaration that hides it is an error in JavaScript, which is not modelled.
- MountFrameRun.FrameDiscipline: `Disciplined` is only sufficient, see `TryRunsAlikeExactlyWhen` for one statement; one loop form stands for all loops and for labelled statements; `switch`, `break` and `continue` are not modelled, mount callbacks are opaque effects on the store, and runs are bounded by fuel of any size, so nothing is said of runs that never end.
- MountFrameTry.TryRunsAlikeExactlyWhen: the blocks hold steps and end in at most one return; nested statements in them are covered only by the sufficient condition.
- MountFrames.CleanListIffTextSafe: the edits are applied to statements rather than to characters; `MagicString` edits keep expressions intact because only the text around them is overwritten.
- JsxWalkers.TransformedExactlyOnce: the tree is a component's body, so the walkers' entry into the component function itself is not modelled.
- InlineSubstitution.WordBoundaryReplace: names are non-empty and consist of ASCII identifier characters.
- StyleTree.BuildStyleBlockRules: rules are structured, not text; property names, number formatting and indentation are left out.
- HelperScan.ContainsStandaloneCall: characters rather than bytes, with ASCII identifier characters.
- FieldWitness.RecordKeptExactlyWhen: `switch` scopes, hoisting of `var` out of blocks and class declarations are left out; scopes around the query's own declaration and function declarations named like the query are not renamed (`IsRenamable`).
- Import-binding collection, vendor prefixes in property names, and the unitless-property table.
