# jsfunkliner, modelled in Dafny

jsfunkliner is a JavaScript "function inliner". It takes a library script
and a snippet that calls into it. It returns the snippet with every call to
a library function replaced by that function's body. The replacement
follows these rules:

- the parameters are substituted by the argument texts;
- `this` is substituted by the object the function was called on;
- a call whose value is used gets a temporary, declared and assigned by the
  inlined body, which is placed in front of the statement;
- a call through an index, `o[k](...)`, becomes a `switch` over the function
  members of `o`;
- a simple counted `for` loop is unrolled, with `i` replaced by the counter
  value of each copy.

The model follows the program's own structure, one module per part:

| module | part of the program |
|---|---|
| `PyText` | the bits of Python's string semantics the program relies on: slicing with negative and out-of-range indices, `split`/`join`, `find`, `str` of an integer, and the `str(int(key)) == key` test |
| `JsAst` | the parse tree as a datatype `Node` (kind, offsets, children, optional attributes), plus `WellShaped`, the shape the parser guarantees |
| `Paths` | `_crawlIdentifier`: the dotted path text of an identifier expression |
| `Environment` | the object model, as classes updated in place: `JSObject` (a members dictionary plus an optional function node) and `JSEnvironment` (root object, `this` stack, scope stack, and the dotted `get`/`set` walks) |
| `Views` | a snapshot of the objects as a value (`Mem`), together with a `View` of the two stacks; `Corr`/`EnvCorr` tie the live objects to the snapshot |
| `LibraryCrawler` | `_crawlFunctions`: the walk over the library that builds the objects, including the deferred crawl of prototype methods |
| `BodyRewriter` | `replaceIdentifiers`: the `Replacer` walker that copies a function body, substitutes identifiers and rewrites `return` into an assignment to the temporary |
| `CallSites` | the argument texts of a call and the parameter bindings of `replacecall` |
| `SwitchGen` | the text of the `switch` statement that `replacecallswitch` generates |
| `FunctionTypes` | `parsefunctiontypes`: the `name /* : type */` annotations of a parameter list |
| `Loops` | `unloopFor`'s analysis of a loop (start, step, stop test) and its iteration count |
| `SnippetWalk` | the `Crawler`'s walk of the snippet, as functions from a state to a state |
| `WalkFacts` | properties of that walk, in particular that a snippet with nothing to inline comes back unchanged |
| `Inliner` | the `Crawler` class, whose methods are proved equal to the `SnippetWalk` functions, and `inlineSingle` |

A Python exception anywhere in the program makes `inlineSingle` fail. The
model carries it as a `raised` flag, or as the `Raised` outcome. Each
operation's error paths are modelled: unbound names, `len(None)`, a dotted
`set` through a missing object, and an index out of range.

## Model

| member | source | states |
|---|---|---|
| PyText.SliceBound | jsfunkliner.py:378 | a Python slice bound: within `[0, n]`, counted from the end when negative, clamped when out of range |
| PyText.SliceContents | jsfunkliner.py:385 | `text[a:b]` has length `min(b, len) - a` (or 0) and holds the characters from `a` on |
| PyText.SliceConcat | jsfunkliner.py:519-520 | consecutive slices `text[a:b] + text[b:c]` make `text[a:c]`, so copying up to an offset and moving the cursor there loses nothing |
| PyText.JoinSplit | jsfunkliner.py:572 | `c.join(s.split(c)) == s` |
| PyText.SplitJoin | jsfunkliner.py:572 | splitting the join of separator-free parts gives the parts back |
| PyText.SplitAround | jsfunkliner.py:61 | splitting `l + c + r` splits `l` and `r` independently |
| PyText.DropLastSegmentSpec | jsfunkliner.py:572 | `'.'.join(name.split('.')[0:-1])` followed by `.` and the last segment rebuilds `name` |
| PyText.FindIsFirst | jsfunkliner.py:578 | `find` returns the first occurrence at or after `from`, or -1 when there is none |
| PyText.DigitsOfNat | jsfunkliner.py:564 | `str(n)` of a natural number is its decimal representation: the digits read back give `n` |
| PyText.PyIntOfIntString | jsfunkliner.py:666 | `int(str(n)) == n` for every integer |
| PyText.IntKeyIffCanonical | jsfunkliner.py:665-669 | a member key also gets a numeric `case` label exactly when it is the canonical decimal text of some integer |
| PyText.NonIntKeyExamples | jsfunkliner.py:665-669 | `-0`, `007`, ` 7` and `log` get no numeric label, although `int` accepts the first three |
| Paths.CrawlIdentifier | jsfunkliner.py:147-167 | `this`, an identifier and a number give their own text, and a kind outside the path kinds gives no path |
| Paths.BinaryPath | jsfunkliner.py:154-165 | a `.`, `[]` or `%` node has a path exactly when both operands have one; the path is the operands joined by the operator, and the node raises otherwise |
| Paths.UnaryPath | jsfunkliner.py:158-163 | `++`/`--` is written before or after the operand's path, as in the text |
| Paths.DotChainSplits | jsfunkliner.py:61 | the path of a chain of `.` accesses splits on `.` into the chain's names |
| Paths.StringOperandExample | jsfunkliner.py:147-167 | a string operand has no path, so a `.` on a string raises (it concatenates None) |
| Paths.PrefixIncrementExample | jsfunklinertest.py:47-52 | `++this.message`-style operands keep the `++` in front of the path |
| Paths.PostfixDecrementExample | jsfunklinertest.py:54-59 | `this.message--`-style operands keep the `--` after the path |
| Environment.JSObject.constructor | jsfunkliner.py:115-127 | a new object's members are its parent's members overridden by the extra members, and it holds the given function |
| Environment.JSObject.SetItem | jsfunkliner.py:129-133 | sets one member and changes nothing else |
| Environment.JSObject.GetItem | jsfunkliner.py:135-139 | a member's value, or None when there is no such member |
| Environment.PlainIff | jsfunkliner.py:61-62 | a name takes the plain (scope) path of `get`/`set` exactly when it has no dot |
| Environment.JSEnvironment.constructor | jsfunkliner.py:10-16 | one `this` (the given one), one empty scope, and the given root |
| Environment.JSEnvironment.NewObject | jsfunkliner.py:115-127 | allocates an object holding a copy of its parent's members; the stacks are unchanged |
| Environment.JSEnvironment.PushThis | jsfunkliner.py:18-22 | pushes onto the `this` stack; `GetThis` is then the pushed object |
| Environment.JSEnvironment.PopThis | jsfunkliner.py:24-28 | pops the `this` stack and returns the object on top of it |
| Environment.JSEnvironment.PushPopThis | jsfunkliner.py:18-34 | `pushThis(x)` followed by `popThis()` returns `x` and restores the `this` stack, so `getThis()` is the previous one again |
| Environment.JSEnvironment.PushScope | jsfunkliner.py:36-40 | pushes an empty scope |
| Environment.JSEnvironment.PopScope | jsfunkliner.py:42-46 | drops the top scope |
| Environment.JSEnvironment.CreateLocal | jsfunkliner.py:48-52 | declares the name, as None, in the top scope only |
| Environment.JSEnvironment.Set | jsfunkliner.py:54-78 | a plain name is set in the top scope if declared there, otherwise on the root; afterwards the name resolves to the value and every other plain name resolves as before. A dotted name sets the last segment on the object the rest of the path leads to, and no other object changes |
| Environment.JSEnvironment.Get | jsfunkliner.py:81-112 | the loop over the path returns exactly `Lookup`: the first segment comes from `this`, the top scope or the root, and each further segment from the previous object's members, with None once the walk has left the objects |
| Environment.JSEnvironment.WalkToSnoc | jsfunkliner.py:95-103 | walking one segment more is one member lookup more, on the object reached (or None) |
| Environment.JSEnvironment.PrefixTarget | jsfunkliner.py:61-73 | the object `set` writes `p.m` into is `this` when `p` is `this` and otherwise the object `get(p)` returns |
| BodyRewriter.Replacer.constructor | jsfunkliner.py:346-366 | the walk run at construction leaves exactly the state of `Run`: the temporary's declaration first (when one is needed), then the body from its first statement on |
| BodyRewriter.Replacer.WalkBranch | jsfunkliner.py:369-379 | every statement is walked, then the text up to the end of the branch is copied; for the body itself it stops at the end of its last statement |
| BodyRewriter.Replacer.WalkStatement | jsfunkliner.py:381-424 | a return is copied up to its start and its value follows, assigned to the temporary when one is needed; a call substitutes its callee and walks its arguments; an expression statement walks its expression, an `if` its condition and a `var` its first initializer; all but calls and expression statements then walk their child attributes, and the rest of the statement is copied |
| BodyRewriter.Replacer.WalkReturn | jsfunkliner.py:384-397 | a `return` becomes `<temp> = <value>;` when a temporary is needed, and otherwise its value is written in place |
| BodyRewriter.Replacer.WalkChildren | jsfunkliner.py:411-420 | each of the five attributes, in the source's order: one holding an expression is walked as an expression, an empty statement (whose expression is None) raises, and one with children is walked as a branch |
| BodyRewriter.Replacer.FinishStatement | jsfunkliner.py:421-424 | the rest of the statement is copied when the cursor has not reached its end |
| BodyRewriter.Replacer.WalkExpression | jsfunkliner.py:426-431 | the parts are walked in order, or the node itself when it has none |
| BodyRewriter.Replacer.WalkExpressionPiece | jsfunkliner.py:432-454 | identifiers and `this` are substituted and literals are kept; a `.` access substitutes only its base; a childless node is retried on its `expression`, and an exception there is swallowed |
| BodyRewriter.Replacer.ReplaceIdentifier | jsfunkliner.py:456-460 | an identifier with a replacement emits the text before it plus the replacement, and the cursor moves past it; any other identifier changes nothing |
| BodyRewriter.RetValHeader | jsfunkliner.py:356-360 | without a return name, forcing a temporary changes nothing; when a temporary is needed the output begins with `var <temp> = undefined;` |
| BodyRewriter.ExpressionUntouched | jsfunkliner.py:426-460 | an expression mentioning no replaced name emits nothing and leaves the cursor where it was |
| BodyRewriter.ReturnAssigned | jsfunkliner.py:384-397 | with a temporary, `return v` becomes the text before it, `<temp> = `, the rewritten value, the rest of the statement and `;` plus a newline, with the cursor at the statement's end |
| BodyRewriter.NoAttrsWalked | jsfunkliner.py:411-420 | a statement with none of the five attributes emits nothing in the attribute loop |
| BodyRewriter.StatementCopied | jsfunkliner.py:381-424 | with nothing to replace and no `return`, a statement either raises or emits exactly the library text its cursor moves over |
| BodyRewriter.VerbatimCopy | jsfunkliner.py:346-366 | with nothing to replace, no temporary and no `return`, the rewritten body is the library text from the first statement on, copied verbatim |
| CallSites.ArgsSpec | jsfunkliner.py:615 | the arguments are crawled exactly when each one is, one text per argument, in order (strings quoted, other values as their path) |
| CallSites.LastIndex | jsfunkliner.py:622-626 | the last position holding a name, which is what a repeated parameter ends up bound from |
| CallSites.BindParams | jsfunkliner.py:621-626 | the loop builds exactly `Bindings` |
| CallSites.BindingsSpec | jsfunkliner.py:614-626 | each parameter is bound to the argument at its (last) position, or to `undefined` when there are fewer arguments; other names keep their binding; surplus arguments are ignored |
| CallSites.BindingsExample | jsfunklinertest.py:665-670 | `f(a, b)` against `(x, y, z)` binds `z` to `undefined` |
| CallFacts.DirectCallUntouched | jsfunkliner.py:606-613 | a direct call with a path is left exactly as it is if and only if the looked-up name holds no function |
| CallFacts.NamelessCalleeRaises | jsfunkliner.py:606-608 | a callee without a path, or whose path raises, makes the call raise |
| CallFacts.CallIsDirectTo | jsfunkliner.py:599-613 | a callee that is not an index is looked up under its path, without `.call` |
| CallFacts.ResolvedCall | jsfunkliner.py:609-613 | a callee that resolves to a function is inlined with that function |
| CallFacts.ResolvedCallBindings | jsfunkliner.py:614-627 | for `f.call(a0, ...)` `this` is the first argument and the parameters take the rest; for a dotted callee `this` is the path before the last dot; for a plain name only the parameters are bound; `.call` without arguments and a function without parameters or body raise |
| CallFacts.InlineCallBindings | jsfunkliner.py:614-627 | the same four cases for a given function and call form |
| CallFacts.InlineChanges | jsfunkliner.py:614-640 | inlining either raises or emits two fragments, so a resolved call never leaves the output as it was |
| CallFacts.InlineBodyShape | jsfunkliner.py:628-640 | with a temporary the rewritten body, which starts with the temporary's declaration, is hoisted and the call becomes the temporary's name; otherwise the body replaces the call, in parentheses when the value is used; the cursor moves past the call and the counter is kept |
| CallFacts.CallSiteNumbering | jsfunkliner.py:563-568 | a used value gets the temporary `ret<name><k>` for the k-th call of the statement, an unused one none; an unnamed statement raises; a call that does not raise advances the counter by one |
| CallFacts.TempNamesDistinct | jsfunkliner.py:564 | two calls of a statement get the same temporary if and only if they have the same number |
| CallFacts.SwitchUnboundUntouched | jsfunkliner.py:642-655 | an indexed call whose object is not bound is left exactly as it is |
| CallFacts.SwitchSpliced | jsfunkliner.py:657-709 | over a bound object: no function member or a failing case raises; the switch text starts with the `switch` head; with a return name it is hoisted and the call becomes the name; without one it replaces the call (or is dropped when the value is used) and the cursor skips past the call |
| AddExample.AddRewrittenFor | jsfunklinertest.py:89-94 | for any argument texts `a` and `b`, `add`'s body `return one + two;` rewrites to `a + b` |
| AddExample.AddRewritten | jsfunklinertest.py:110-115 | the test's instance: `add`'s body rewritten for `add(2,3)` is `2 + 3` |
| AddExample.AddInlinedAsValueFor | jsfunklinertest.py:89-94 | `add(a, b)` whose value is used becomes `(a + b)` in place of the call, for any argument texts |
| AddExample.AddInlinedAsValue | jsfunklinertest.py:110-115 | the test's instance: `add(2,3)` whose value is used becomes `(2 + 3)` |
| SquareExample.SquareRewritten | jsfunklinertest.py:131-136 | `square`'s body for `square(2)` with temporary `retfinal0` is `var retfinal0 = undefined;`, a newline, `var two = 2; retfinal0 = 2 * two;` and a newline |
| SquareExample.SquareHoistedCall | jsfunklinertest.py:131-136 | in `var final = square(2)` the call becomes `retfinal0` and that rewritten body is hoisted in front of the statement |
| SwitchGen.CaseReplacements | jsfunkliner.py:671-682 | `this` is the first argument of `o[k].call(...)`, else the object's name; the remaining arguments bind the parameters from the first, and there is an exception when there are more arguments than parameters |
| SwitchGen.MakeCase | jsfunkliner.py:663-689 | one case: its labels, the rewritten body (with a return temporary forced) and, when no temporary is needed so far, `;` before `break` |
| SwitchGen.BuildSwitch | jsfunkliner.py:657-690 | the loop over the keys builds exactly `Switch`: a head, one case per key holding a function in dictionary order, and a default that calls the original |
| SwitchGen.CasesKeys | jsfunkliner.py:662-664 | the cases are those of the keys holding a function, in the order the keys are listed |
| SwitchGen.CasesNeed | jsfunkliner.py:684 | the "needs a temporary" flag of every case is the incoming flag or the presence of a return name |
| SwitchGen.CasesRaise | jsfunkliner.py:662-683 | building the cases raises exactly when some member is None (`getFunction` on None) or the case of some function member raises |
| SwitchGen.CaseFailsAnyNeeds | jsfunkliner.py:671-683 | whether a case raises does not depend on the flag carried in from earlier cases |
| SwitchGen.SwitchShape | jsfunkliner.py:657-690 | with no function member the default line refers to unbound arguments and raises; otherwise the text starts with the `switch` head and ends with the default |
| SwitchGen.SwitchNeeds | jsfunkliner.py:660-684 | the switch needs a temporary exactly when the call has a return name |
| SwitchGen.LabelExamples | jsfunkliner.py:664-667 | key `1` gets both a string and a numeric label, key `log` only the string one |
| SwitchGen.LabelOfOne | jsfunklinertest.py:533-538 | a numeric key such as `1` gets the labels `case "1":` and `case 1:` |
| FunctionTypes.MatchIff | jsfunkliner.py:500 | the hand-written matcher accepts a piece, giving `(n, t)`, exactly when the piece is `n`, spaces, `/*`, spaces, `:`, spaces, `t`, spaces, `*/` and anything after, which is what the regular expression accepts at the start of a string |
| FunctionTypes.TypesOfSpec | jsfunkliner.py:497-505 | a name is typed exactly when some piece of the list annotates it, and it gets the type of the last such piece |
| FunctionTypes.TypedAreNames | jsfunkliner.py:500 | every typed name is an identifier, so it has no dot |
| FunctionTypes.ParseFunctionTypes | jsfunkliner.py:492-505 | the loop over the comma-separated pieces builds exactly `TypesOf` with the anchored match of `re.match`, so a piece beginning with a space is never typed |
| FunctionTypes.TwoAnnotations | jsfunkliner.py:493-505 | with the match of the source as written, a second annotated parameter after `, ` is dropped; with the intended match it is kept |
| FunctionTypes.DocExampleStrict | jsfunkliner.py:493-505 | the documented example yields only `{variable: type}` with the source's `re.match` |
| FunctionTypes.DocExample | jsfunkliner.py:493-496 | the documented example yields `{variable: type, othervar: mytype}` with the intended match |
| FunctionTypes.SpacedAnnotationExample | jsfunkliner.py:500 | spaces around `/*`, `:` and `*/` are accepted, and an unannotated parameter is skipped |
| FunctionTypes.DottedTypeExample | jsfunkliner.py:500 | a type may be dotted |
| Loops.ValueFormula | jsfunkliner.py:784-789 | after k steps the counter is `start + k * step` |
| Loops.CountIterations | jsfunkliner.py:780-789 | the counting loop stops at the first value that meets the stop test, or at 60 |
| Loops.RunsCharacterised | jsfunkliner.py:780-789 | an iteration count is determined by these two facts: none of the values before it stops, and (below 60) the value at it does |
| Loops.RunsUnique | jsfunkliner.py:780-789 | there is only one such count |
| Loops.CountUp | jsfunkliner.py:765-766 | `for (i = s; i < b; i += d)` with `d > 0` runs the least `n` with `s + n*d >= b` times |
| Loops.TwoRuns | jsfunklinertest.py:160-164 | `for (var i=0; i<2; i+=1)` runs twice, with `i` equal to 0 and then 1 |
| Loops.DownByThree | jsfunklinertest.py:200-204 | `for (var i=5; i>0; i=i-3)` runs twice |
| Loops.NonNumericBound | jsfunkliner.py:763-773 | under Python 2 ordering (a number is less than any string), a non-numeric bound makes `>`/`>=` stop at once and `<`/`<=` never stop |
| Loops.RecognisedIsNumeric | jsfunkliner.py:763-773 | a loop the corrected analysis accepts has a numeric bound, and both analyses agree on it |
| Views.ViewOfCorr | jsfunkliner.py:10-16 | every environment corresponds to its own snapshot and view |
| Views.LookupCorr | jsfunkliner.py:81-112 | the live `get` and the snapshot's `Lookup` agree on every name |
| Views.WalkCorr | jsfunkliner.py:95-103 | walking a path in the live objects and in the snapshot reaches corresponding objects |
| LibraryCrawler.GetOrNew | jsfunkliner.py:174-178 | an existing object is reused, and otherwise a fresh empty object holding the function is made |
| LibraryCrawler.SetChecked | jsfunkliner.py:54-78 | `set` succeeds exactly when a dotted name's path leads to an object, and then it has the effect of `Set`; on failure nothing changes |
| LibraryCrawler.BindFunction | jsfunkliner.py:173-185 | a new function name gets a fresh function object whose only member is a fresh empty `prototype` |
| LibraryCrawler.BindPrototype | jsfunkliner.py:228-240 | an existing object without members gets a fresh empty `prototype` |
| LibraryCrawler.ProtoSlot | jsfunkliner.py:179-183 | `set(name + ".prototype", p)` writes member `prototype` of the object `name` resolves to |
| LibraryCrawler.CrawlFunctions | jsfunkliner.py:169-300 | the crawl keeps the environment well formed; a failure is an exception; the stacks come back as they were; what each statement binds is stated by the members below |
| LibraryCrawler.CrawlStatement | jsfunkliner.py:172-297 | `function f` binds a fresh function object with a fresh empty `prototype` (when `f` was unbound) and queues its body against that prototype; a property queues nothing; an expression statement that is not an assignment, or any other statement kind, changes nothing |
| LibraryCrawler.FunctionTask | jsfunkliner.py:173-185 | one queued task, the crawl of the function's body with its new `prototype` as `this` |
| LibraryCrawler.VarStatement | jsfunkliner.py:186-225 | a declaration without initializer raises; a function initializer binds as `function f` does; an identifier aliases; any other non-literal initializer changes nothing |
| LibraryCrawler.VarInit | jsfunkliner.py:187-225 | the dispatch on the initializer's kind: function, object literal, array literal, identifier, or nothing |
| LibraryCrawler.BindAlias | jsfunkliner.py:223-225 | `set(name, get(from))` succeeds exactly when the name can be set, and a plain name then holds what `from` held |
| LibraryCrawler.AssignStatement | jsfunkliner.py:226-227 | a target whose path raises makes the statement raise |
| LibraryCrawler.AssignValue | jsfunkliner.py:228-271 | by the assigned value: a function binds and queues its body, an identifier aliases, `new a` queues the binding of a fresh object copying `a.prototype` (and raises when `a` has no path), a target without a path raises, and any other value changes nothing |
| LibraryCrawler.RunTask | jsfunkliner.py:179-184 | queued work: a bodiless function raises; `x = new a` binds `x` to a fresh object without function, holding a copy of the members of `a.prototype` (none when that is unbound), and a target without a path raises |
| LibraryCrawler.PropertyInit | jsfunkliner.py:273-297 | an object or array literal under a number key raises (`"this." + number`); a value that is no function, object or array literal changes nothing |
| LibraryCrawler.BindMethod | jsfunkliner.py:273-274 | a fresh object of the function node; for a dot-free key it becomes that member of the current `this`, which fails exactly when there is no `this` |
| LibraryCrawler.MemberPath | jsfunkliner.py:274 | `this.k` for a dot-free `k` names member `k` of the current `this` |
| SnippetWalk.OutsAreCopies | jsfunkliner.py:795-803 | the k-th unrolled copy is the loop body rewritten with `i` bound to the counter after k steps |
| SnippetWalk.AssembleText | jsfunkliner.py:795-803 | the unrolled text is the copies, each followed by the text after the body's last statement, joined by newlines |
| SnippetWalk.CopiesDone | jsfunkliner.py:795-803 | unrolling raises exactly when one of the copies raises |
| SnippetWalk.CopiesText | jsfunkliner.py:792-803 | the unrolled text is the newline-joined list of copies |
| SnippetWalk.SampleParsed | jsfunkliner.py:720-773 | `for (var i = 5; i > n; i--)` is accepted by the source's analysis with a non-numeric bound, and rejected by the corrected one |
| SnippetWalk.LoopDeletedAsWritten | jsfunkliner.py:763-803 | as written, that loop is erased from the output: zero copies are emitted and the cursor skips its body |
| SnippetWalk.LoopKeptCorrected | jsfunkliner.py:544-548 | with the correction the loop is not unrolled and is left to the ordinary walk |
| SnippetWalk.FunctionScopeIs | jsfunkliner.py:570-588 | a named function expression's effect is its body walked as a branch, with the function's own `this` and scope |
| WalkFacts.ExpressionCallFree | jsfunkliner.py:561-597 | an expression with no call and no function expression emits nothing and leaves the walk's state alone |
| WalkFacts.BranchKeepsText | jsfunkliner.py:507-559 | walking a branch with nothing to inline only copies the snippet: the output so far is always exactly the snippet's prefix up to the cursor |
| WalkFacts.StatementKeepsText | jsfunkliner.py:510-557 | the same for one statement of such a branch |
| WalkFacts.LineKeepsText | jsfunkliner.py:514-539 | a line without calls copies the text before it and moves the cursor to its start |
| WalkFacts.CasesKeepText | jsfunkliner.py:549-551 | the same for the cases of a `switch` |
| WalkFacts.InertSnippet | jsfunkliner.py:469-476 | a snippet with nothing to inline comes back as the snippet itself, up to the end of its outer branch |
| WalkFacts.BindTypesSpec | jsfunkliner.py:579-583 | after binding the typed parameters, each of them is in the top scope, bound to a copy; other names of the top scope are as before |
| Inliner.Crawler.constructor | jsfunkliner.py:480-490 | constructing the crawler walks the whole snippet, and its state agrees with `Branch` on the empty output |
| Inliner.Crawler.WalkBranch | jsfunkliner.py:507-559 | the branch walk agrees with `SnippetWalk.Branch` (the statements, then the text to the end of the branch), and leaves the stacks as they were unless it raises |
| Inliner.Crawler.WalkStatements | jsfunkliner.py:510-557 | the statements in order, each agreeing with `Statement` |
| Inliner.Crawler.WalkStatement | jsfunkliner.py:510-557 | one statement of `walkbranch`, agreeing with `Statement`: `var`, expression statement, call (which raises), `for`, `switch`, then the attributes |
| Inliner.Crawler.WalkVar | jsfunkliner.py:513-524 | a `var` with an initializer is a line named after the declarator, whose value is used |
| Inliner.Crawler.WalkExpressionLine | jsfunkliner.py:525-540 | an assignment is a line named after its target whose value is used; any other expression is named after the statement's value and its value is not used |
| Inliner.Crawler.WalkFor | jsfunkliner.py:544-548 | a loop the source's analysis unrolls is replaced by its copies (none, for a named `>`/`>=` bound), and otherwise its body is walked |
| Inliner.Crawler.WalkCases | jsfunkliner.py:549-551 | every case body of a `switch` is walked as a branch |
| Inliner.Crawler.WalkAttrs | jsfunkliner.py:554-557 | every present attribute of the statement is walked as a branch, in the source's order |
| Inliner.Crawler.WalkLine | jsfunkliner.py:516-524 | the text before the line is copied, the call counter and hoisted text are reset, the expression is walked, and the hoisted text goes in front of what it emitted |
| Inliner.Crawler.WalkExpression | jsfunkliner.py:561-597 | a call is replaced, a function assigned to a name is walked in its own scope, and anything else has its parts walked |
| Inliner.Crawler.WalkPieces | jsfunkliner.py:589-597 | the parts in order: calls replaced, parts with parts walked, leaves skipped |
| Inliner.Crawler.WalkFunction | jsfunkliner.py:570-588 | the body is walked with the owner of `name` as `this` and a new scope of typed parameters, and both stacks are restored afterwards |
| Inliner.Crawler.EnterFunction | jsfunkliner.py:572-583 | the pushed `this` is the object the path before the last dot names; the new scope holds the parameters the anchored match of jsfunkliner.py:500 types, bound in the order given |
| Inliner.Crawler.BindTypedParams | jsfunkliner.py:579-583 | the loop over the typed parameters binds them as `BindTypes` does, and the scopes below the top are untouched |
| Inliner.Crawler.BindTypedParam | jsfunkliner.py:580-583 | one parameter is declared and then bound to a fresh copy of the members of its type's `prototype` |
| Inliner.Crawler.LeaveFunction | jsfunkliner.py:585-586 | pops the scope and `this` that entering pushed, which restores the environment of the caller |
| Inliner.Crawler.VisitCall | jsfunkliner.py:563-568 | agrees with `CallSite`, whose numbering `CallFacts.CallSiteNumbering` and `CallFacts.TempNamesDistinct` state: the temporary `ret<name><k>`, distinct per call, and the counter advance |
| Inliner.Crawler.ReplaceCall | jsfunkliner.py:599-604 | agrees with `Call`: an indexed callee goes to the switch, and any other callee is inlined directly, as `CallFacts.CallIsDirectTo` and `CallFacts.DirectCallUntouched` characterise |
| Inliner.Crawler.ReplaceDirect | jsfunkliner.py:606-613 | the callee's path (without `.call`) is looked up; a name that is not a function leaves the call unchanged |
| Inliner.Crawler.InlineFunction | jsfunkliner.py:614-627 | `this` and the parameters are bound as in the source, and the rewritten body replaces the call |
| Inliner.Crawler.Splice | jsfunkliner.py:628-640 | agrees with `SpliceCall`, whose three shapes `CallFacts.InlineBodyShape` states: with a temporary, the body is hoisted and the call's text becomes the temporary's name; otherwise the body replaces the call, in parentheses when the value is used |
| Inliner.Crawler.ReplaceCallSwitch | jsfunkliner.py:642-655 | the object and key names are crawled, and an unbound object leaves the call unchanged |
| Inliner.Crawler.SwitchOverMembers | jsfunkliner.py:657-690 | the switch over the object's members, in dictionary order, is built and spliced |
| Inliner.Crawler.SpliceSwitchCall | jsfunkliner.py:692-709 | agrees with `SpliceSwitch`, whose shapes `CallFacts.SwitchSpliced` states: with a temporary, the switch is hoisted; otherwise it replaces the call, which also drops one following character and then a `;` or a space |
| Inliner.Crawler.UnloopFor | jsfunkliner.py:711-804 | agrees with `Unloop` under the analysis as written (a non-numeric bound compared as Python 2 does): an unrecognised loop, or one running 60 times or more, is reported as not unrolled and changes nothing; otherwise the text before it is copied, then the copies, and the cursor moves to the end of the body |
| Inliner.Crawler.Unroll | jsfunkliner.py:792-803 | the emitting loop appends exactly the assembled copies, or raises when one of them does |
| Inliner.InlineSingle | jsfunkliner.py:469-476 | the result is the crawler's output for the snippet over the objects the library crawl built (or an exception); a snippet with nothing to inline comes back unchanged |

## Left out

- The JavaScript parser (`jsparser`) is not part of this model. Parse trees are inputs, and `WellShaped` states the shape the parser produces. Python truthiness of a node (`if child:`) is modelled as "the attribute is present".
- The CGI front end, the test file and the command-line entry point (jsfunkliner.py:812-821) read files and print. They are I/O and are left out. So are the diagnostic `print`s, including the "Impossible" branch of jsfunkliner.py:703.
- `_crawlCalls` and `inlineFunction` (jsfunkliner.py:302-327) are never called, so they are not modelled.
- The regular expression engine: the one expression of jsfunkliner.py:500 is written out as a matcher, `FunctionTypes.MatchAt`, proved equivalent to the pattern's shape by `FunctionTypes.MatchIff`.
- Dictionary order: the order `keys()` lists a dictionary in is a parameter, any enumeration of the keys (`SnippetWalk.OrderOk`), not CPython's hash order.
- `walkbranch` writes `branch.end = len(inputtext)` back into the tree (jsfunkliner.py:508-509). The model reads the end through `BranchEnd` instead. Likewise the VAR end update of jsfunkliner.py:410 is read through `EffEnd` rather than mutated.
- Python's recursion limit and the memory use of deep recursion are not modelled.
- `self.statementCalls` (jsfunkliner.py:512) is assigned and never read.
- The crawler's state after an exception is not modelled, only the fact that one was raised: `inlineSingle` fails as a whole. For that reason `Inliner.Crawler.WalkFunction` raises for a nameless or bodiless function before pushing the function's scope, which the source does after pushing it.
- NUMBER values are modelled as unbounded integers (`JsAst.Node.num`). A decimal or exponent literal, which the parser gives as a Python float, is outside the model. So are the float arithmetic and comparisons of `unloopFor` (jsfunkliner.py:780-789, 799) and the `str()` formatting of a float in `_crawlIdentifier`, `replaceIdentifiers` and `replacecallswitch` (jsfunkliner.py:153, 459, 673). For example, `for (var i = 0; i < 1; i += 0.5)` and `add(2.5, 3)` cannot be expressed.
- LibraryCrawler.CrawlFunctions: does not state the final environment as a function of the library text; the effect of each statement is stated per shape by CrawlStatement, VarInit, AssignValue, PropertyInit and RunTask.
- LibraryCrawler.BindObject: states well-formedness only; which members an object literal creates is not characterised.
- LibraryCrawler.BindArray: states well-formedness only; the `this.<index>` elements and their prototypes are not characterised.
- LibraryCrawler.BindMethod: for a key holding a dot, only that a fresh object of the function node is made; where it is set is not characterised.
- LibraryCrawler.RunTask: for a queued body, only well-formedness and the restored stacks; for `x = new a` with a dotted `x`, only well-formedness.
- LibraryCrawler.AssignValue: for an object or array literal, states only what BindObject and BindArray state.
- Environment.JSEnvironment.PopThis and Environment.JSEnvironment.PopScope: require an entry pushed above the initial one. The source pops only what it pushed, so it never pops the initial entry.

## Findings

| source | as written | input that shows it | evidently intended | confidence | as-written member | corrected member |
|---|---|---|---|---|---|---|
| jsfunkliner.py:498-500 | each piece of `signature.split(',')` is matched with `re.match`, which anchors at the piece's first character, so a piece starting with the space after a comma never matches | the documented example `variable/*:type*/, othervar /* :mytype */` gives `{variable: 'type'}` only | `{variable: 'type', othervar: 'mytype'}`, as the docstring at jsfunkliner.py:493-496 says (leading spaces skipped) | not executed | FunctionTypes.DocExampleStrict | FunctionTypes.DocExample |
| jsfunkliner.py:763-803 | the stop test compares the counter with `condition[1].value` whatever the bound is; in Python 2 a number is less than any string, so `i > n` or `i >= n` with a named bound `n` stops at once | `for (var i = 5; i > n; i--) { f(i); }` | a loop whose bound is not a number is not unrolled, and is walked as it stands | not executed | SnippetWalk.LoopDeletedAsWritten | SnippetWalk.LoopKeptCorrected |

The walk of the snippet (`SnippetWalk`, `Inliner`) follows the code as
written. It uses the anchored match (`TypesOf(.., true)`) and the loop
analysis with Python 2 ordering (`ParseLoop(.., true)`), so the model
computes what the program computes on both inputs. The corrected
definitions are the same functions with the flag off. They sit beside the
walk, and the intended behaviour is proved about them:
`FunctionTypes.DocExample` and `SnippetWalk.LoopKeptCorrected`, with
`Loops.RecognisedIsNumeric` showing that the two loop analyses agree on
every loop with a numeric bound.
