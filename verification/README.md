# Verified models of the i915 backport helpers

This project models the parts of the i915 backport repository in which one mistake would be
hard to see: the Kconfig expression simplifier, menu restructuring, symbol evaluation, cycle
search and `.config` text (`kconf/`), the MMU interval-notifier protocol, red-black tree
rebalancing, the scatter-gather copy loop and the batched memory-control counters (`compat/`).
`dafny verify dfyconfig.toml` checks everything.

What the files hold:

- `KconfigExpr`, `ExprTransform`, `ExprEliminate`, `ExprDups`: expressions over n < m < y, their
  value (`expr_calc_value`), and the rewriting functions of `kconf/expr.c`. A valuation is
  well-typed (`WellTyped`) if bools are never m, bools and tristates are compared for equality
  only with constants that are not numerals, and ordered operands are comparable. The values that
  `sym_calc_value` computes are such a valuation (`SymValues.ValuesAreGood`).
- `MenuDeps`, `MenuTree`, `MenuFinalize`, `MenuWalk`, `MenuVisible`: the dependency expressions and
  the links of menu nodes, `menu_finalize` on those links, the walk of `conf_write`, and what the
  dependencies and conditions left in the tree mean.
- `SymCycles`, `SymValues`, `SymExact`, `SymSet`, `SymEval`: the search for recursive dependencies;
  the values of a configuration as a relation; the same values stated by bounds and positions; what
  setting a value does; and `sym_calc_value` with its `SYMBOL_VALID` memory, proved to compute them.
- `ConfigText`, `ConfigLine`: quoting, printing and reading lines of a `.config` file.
- `MmuNotifier`, `MmuSafety`, `MmuObject`: the protocol as a transition system over any number of
  invalidations, readers, inserts and removals, in which each section under the spinlock is a
  step; its invariant and the properties of all runs; and the lock sections as methods.
- `RbTree`, `RbInsert`, `RbErase`, `RbWalk`: heap nodes with parent pointers, the tree they
  represent, insertion, the erase fixup and traversal.
- `SgPages`, `SgCopy`: the page and mapping iterators and `sg_copy_buffer`.
- `MemcgCounters`: per-CPU batched counters over a group tree.

Heap structures are handled in the same way in `RbTree` and `MenuTree`: a ghost map (`Mem`) is a
snapshot of the nodes, every write of a method updates the map along with the node, and lemmas
about the map relate it to a tree value. The expression modules model an expression tree as a
value; where the source runs two cursors over one tree, the model uses paths into one value.

Some properties one might expect are false of the code. The model keeps the code, shows the failure
and says when the property holds: with an if and only if, except for the submenu test, where the
conditions are sufficient:

- `expr_transform` of a negated ordering keeps the value if and only if the operands can be compared
  (`NegatedOrderingIff`).
- Joining `a='b' && a!='c'` is right if and only if b and c are the same or a does not equal both
  (`JoinEqNeIff`); a tristate at m equals both '1' and 'm' (`NumeralBreaksJoin`).
- `expr_trans_bool` of `!(a!=n)` keeps whether the value is n if and only if a is not m
  (`TransBoolUnderNotIff`). `menu_finalize`, its only caller, never passes such an expression, because
  `expr_transform` has removed the negation (`InheritedNormal`).
- `expr_trans_compare` of a negation is right if and only if the negated operand is not m
  (`TransCompareNotExactIff`); in general it compares the expression in which a negated m is read as
  n or as y (`TransCompareValue`).
- So the submenu test can accept an item that is available while the symbol's prompt is not visible:
  `depends on S!=m && !Q` after `config S` with a prompt `if Q=n`, where Q is m
  (`NegatedTristateBreaksTest`). It cannot if the item negates only bools (`SupersetTestSound`), or in
  valuations in which the item is available as the test reads it (`SupersetReading`). In the other
  direction it misses an item that includes the symbol's condition where that can be simplified:
  `R!=y && R!=n` includes `R!=y` but is compared as R=m (`ReducibleMissed`). It misses none where
  neither can be simplified (`SupersetComplete`).
- A removed interval notifier can still be in the tree when `mmu_interval_notifier_remove` returns
  (`RemovalCanReturnEarly`), namely if and only if the drain under way has not come to it yet
  (`RemovedStaysOnlyForDrain`).
- `sym_set_tristate_value` accepts the current value without a range check; a default above the
  visibility is lost then (`SetSameLosesValue`, and `SetSameValue` for the exact condition).
- The search for recursive dependencies does not look at what implies a symbol: a symbol that implies
  itself is not reported but can be n or y (`ImplyCycleUnnoticed`). Without imply and choices a silent
  search means that the values are determined (`SilentMeansRanked`, `CheckThenDetermined`).
- A recursive dependency among symbols in no choice is printed but never counted as an error: the
  outermost `sym_check_deps` always returns NULL (`CheckAll`).
- A tristate at m is written as n if MODULES is n, so exactly then it does not read back
  (`ConfigLine.RoundTrip`).

## Model

| member | source | states |
|---|---|---|
| KconfigExpr.ContainsIsDependence | kconf/expr.c:843-869 | where expr_contains_symbol says no, no value of the symbol can change the value of the expression |
| KconfigExpr.StrCmpOrder | kconf/expr.c:1074-1075 | texts are ordered as in a dictionary |
| KconfigExpr.ComparesNumbers | kconf/expr.c:1070-1086 | each of the six comparisons of two numbers is that of their values, unsigned if one of them is |
| KconfigExpr.ComparesTexts | kconf/expr.c:1065-1075 | and of two strings, or with a text that is no number, that of the texts |
| SymCycles.ContainsExactly | kconf/expr.c:843-869 | expr_contains_symbol says yes for exactly the symbols that occur |
| KconfigExpr.DependsForcesSymbol | kconf/expr.c:871-912 | where expr_depends_symbol says yes, the expression is n whenever the symbol is n |
| ExprTransform.TransformKeepsValue | kconf/expr.c:686-841 | expr_transform keeps the value under every well-typed valuation, and the result is well-typed |
| ExprTransform.TransformIsNormal | kconf/expr.c:686-841 | expr_transform leaves NOT only directly above symbols that are not constants, and no bool compared with y, m or n; its termination measure covers De Morgan steps that add nodes |
| ExprTransform.TransformFixesNormal | kconf/expr.c:686-841 | expr_transform leaves alone what has that shape |
| ExprTransform.TransformIdempotent | kconf/expr.c:686-841 | a second expr_transform changes nothing |
| ExprTransform.NegatedOrderingIff | kconf/expr.c:1077-1080 | for each of the four orderings, transforming its negation keeps the value if and only if the operands can be compared |
| ExprTransform.TransBoolKeepsNo | kconf/expr.c:394-418 | expr_trans_bool keeps whether an expression is n if negations are only on symbols |
| ExprTransform.TransBoolDrops | kconf/expr.c:394-418 | it leaves no test of a tristate against n, and leaves alone what has none |
| ExprTransform.TransBoolUnderNotIff | kconf/expr.c:394-418 | under a negation it does so if and only if the tristate is not m |
| ExprTransform.TransCompareValue | kconf/expr.c:914-977 | expr_trans_compare with y or n has, in every good valuation, the value of comparing the expression in which a negated m is read as y or as n |
| ExprTransform.TransCompareExact | kconf/expr.c:914-977 | expr_trans_compare with y or n has the value of the comparison it stands for, if nothing negated is m |
| ExprTransform.TransCompareNotExactIff | kconf/expr.c:945-946 | for a negation it does so if and only if the negated operand is not m |
| ExprTransform.AgainstNoAnd | kconf/expr.c:924-936 | the transformed comparison of an && with n is the && of those of its operands |
| ExprEliminate.EliminateYnKeepsValue | kconf/expr.c:308-389 | expr_eliminate_yn keeps the value |
| ExprEliminate.EliminateYnIsYnFree | kconf/expr.c:308-389 | it leaves no y or n as an operand |
| ExprEliminate.EliminateYnShrinks | kconf/expr.c:308-389 | it makes an expression with such an operand strictly smaller |
| ExprEliminate.StripEqSound | kconf/expr.c:149-218 | __expr_eliminate_eq takes one common operand away from both expressions and nothing else |
| ExprEliminate.EliminateEqSound | kconf/expr.c:220-249 | expr_eliminate_eq only strips common operands of && and of \|\| |
| ExprEliminate.SameSound | kconf/expr.c:251-295 | expressions that expr_eq calls equal have equal values in every valuation |
| ExprEliminate.SameReflexive | kconf/expr.c:251-295 | expr_eq finds every expression equal to itself |
| ExprEliminate.StripIsDifference | kconf/expr.c:149-218 | if expr_eq tells operands apart, __expr_eliminate_eq takes from each expression exactly the operands of the other, as often as they occur, in any order and nesting |
| ExprEliminate.SameUpToOrder | kconf/expr.c:251-295 | then expr_eq finds two && or two \|\| with the same operands equal, in any order and nesting |
| ExprEliminate.SupersetReduced | kconf/expr.c:220-249 | and an && whose operands all occur in the first expression is reduced to y |
| ExprEliminate.OperandReduced | kconf/expr.c:230-246 | and an expression that is an operand of the second one is taken away as a whole |
| ExprEliminate.DependsExactly | kconf/expr.c:871-912 | expr_depends_symbol says yes if and only if an operand of the && is the symbol, or a test for y, for m, or against n |
| ExprEliminate.SupersetBelow | kconf/menu.c:472-483 | if expr_eliminate_eq reduces the second expression to y, the first never exceeds the second |
| ExprDups.JoinSound | kconf/expr.c:423-579 | expr_join_or and expr_join_and return an expression with the value of both operands together |
| ExprDups.JoinEqNeIff | kconf/expr.c:531-545 | joining a='b' && a!='c' keeps the value if and only if b and c are the same or a does not equal both |
| ExprDups.NumeralBreaksJoin | kconf/expr.c:1014-1023 | a numeral with which it does not |
| ExprDups.Dups1Sound | kconf/expr.c:588-655 | expr_eliminate_dups1 keeps the value for any two cursors into one tree |
| ExprDups.Dups1Progress | kconf/expr.c:588-655 | it keeps the shape of the spine; whenever it counts a change it leaves y or n as an operand, so that expr_eliminate_yn shrinks the tree |
| ExprDups.EliminateDupsKeepsValue | kconf/expr.c:656-678 | expr_eliminate_dups keeps the value under every well-typed valuation |
| ExprDups.EliminateDupsKeepsNormal | kconf/expr.c:656-678 | it keeps the shape that expr_transform establishes |
| ExprDups.EliminateDupsIdempotent | kconf/expr.c:656-678 | after it a further pass counts and changes nothing |
| ExprDups.JoinComplete | kconf/expr.c:423-579 | operands that expr_eq calls equal, and every pair for which a simplification is listed, are joined |
| ExprDups.EliminateDupsDupFree | kconf/expr.c:656-678 | of two operands of one && or \|\| of the result, at any depth, neither equals the other by expr_eq nor is redundant beside it |
| ExprDups.NoOperandTwice | kconf/expr.c:656-678 | so no operand occurs twice |
| ExprDups.Simplifier.EliminateDupsLoop | kconf/expr.c:656-678 | the loop ends with that result and restores the global trans_count |
| MenuDeps.RewriteMValue | kconf/menu.c:81-103 | rewrite_m reads a literal m as m with modules and as n without, and changes nothing else |
| MenuDeps.PropagateValue | kconf/menu.c:348-352 | a propagated dependency is the parent's and the node's own together |
| MenuDeps.PropagateNormal | kconf/menu.c:348-352 | and has the shape that expr_transform establishes |
| MenuDeps.BoolFormKeeps | kconf/menu.c:396-397 | expr_trans_bool on a condition in the shape of expr_transform keeps that shape and, in every well-typed valuation, whether it is n, and leaves no test of a tristate against n |
| MenuDeps.NotNoValue | kconf/menu.c:448-473 | what the submenu test compares is y exactly where the condition, with a negated m read as n, is not n |
| MenuDeps.SupersetReading | kconf/menu.c:472-483 | an item accepted by the superset test and available as the test reads it is never available without the symbol's prompt being visible, in every good valuation |
| MenuDeps.SupersetTestSound | kconf/menu.c:472-483 | nor is an accepted item that negates only bools, whatever the symbol's own condition negates |
| MenuDeps.NegatedTristateBreaksTest | kconf/menu.c:472-483 | an accepted item with a negated tristate that is available while the symbol's prompt is not visible |
| MenuDeps.NoPromptPasses | kconf/menu.c:448-450 | for a symbol without a prompt the superset test accepts everything |
| MenuDeps.SupersetComplete | kconf/menu.c:464-483 | it accepts an && that includes the symbol's condition as an operand, or as neighbouring operands, if neither can be simplified further |
| MenuDeps.ReducibleMissed | kconf/menu.c:464-483 | an && that includes the symbol's condition, can be simplified, and is not accepted |
| MenuDeps.SupersetExample | kconf/menu.c:464-471 | such as (S \|\| Q) && R after a symbol S with a prompt if R |
| MenuFinalize.BelongsFollows | kconf/menu.c:455-483 | an item with the symbol, or a test for y, for m, or against n, among the operands of its && follows the symbol whatever its condition; and so does an item that mentions it, in those two cases |
| MenuFinalize.PropagateKids | kconf/menu.c:343-398 | every node right below gets the parent's dependency added to its own, to its prompt's and to those of its symbol's other properties, and no other node changes |
| MenuFinalize.FollowsNeedsSymbol | kconf/menu.c:455-483 | an item that follows a symbol is n whenever the symbol is n if the dependency is absolute, and otherwise whenever the symbol's prompt is not visible, in every good valuation |
| MenuFinalize.Submenu | kconf/menu.c:448-494 | exactly the nodes right after a symbol that follow it, as far as they do without a gap, go below it; order, parent links and inherited dependencies are right; each of them that is absolute or negates only bools needs the symbol; and the node at which it stops has no absolute test and does not include the symbol's condition |
| MenuFinalize.Flatten | kconf/menu.c:567-576 | the level below an if becomes the part of the if's own level right after it, with the right parents, and nothing else changes |
| MenuFinalize.FlattenKids | kconf/menu.c:498-577 | the level becomes the one in which exactly the nodes without a prompt text have given up the levels below them, again and again |
| MenuFinalize.FlattenedFlat | kconf/menu.c:546-577 | if it was so below the nodes of this level, only nodes with a prompt text have nodes below them at any level afterwards |
| MenuFinalize.FlattenedKeeps | kconf/menu.c:546-577 | and nodes with a prompt text keep exactly what is below them |
| MenuFinalize.Finalize | kconf/menu.c:296-605 | menu_finalize keeps the order of all nodes and correct parent links, is entered once for each node that ends up below it, in order, touches no other node, leaves every dependency inherited from all nodes above, leaves only nodes with a prompt text with nodes below them, at every level, and leaves those that had nodes below them with the same ones |
| MenuWalk.Walk | kconf/confdata.c:790-823 | the walk of conf_write visits every node once, in order |
| MenuWalk.FinalizeAndWalk | kconf/zconf.y:553 | after menu_finalize of the root the walk visits the nodes in the order in which they were parsed, each once, and each was finalized once; the tree is flat at every level, its dependencies are inherited, and every menu with a text holds what was written in it |
| MenuVisible.InheritedNormal | kconf/menu.c:343-398 | every dependency and every property's condition in the finalized tree has the shape that expr_transform makes, and for symbols that are not tristate no test of a tristate against n |
| MenuVisible.FollowersInTree | kconf/menu.c:448-483 | so of any two nodes of the finalized tree, one that follows the other's symbol needs that symbol, if it is absolute or negates only bools |
| MenuVisible.InheritedBelow | kconf/menu.c:296-400 | no node's dependency exceeds what is added at the top of the ifs and menus it is in, whatever else the tree contains |
| MenuVisible.BoundedBy | kconf/menu.c:320-352 | no node's dependency exceeds the dependency of any if, the visibility of any menu, or the value of a choice it was written in |
| MenuVisible.DependencyExactly | kconf/menu.c:320-352 | a node's dependency is the lower one of what was written and of the choice's value, the menu's visibility or the if's dependency right above it |
| MenuVisible.PropsAsWritten | kconf/menu.c:392-398 | the condition of every default, select, imply and range is, as far as the value n for symbols that are not tristate and exactly otherwise, the node's dependency and the written condition |
| MenuVisible.VisibilityAsWritten | kconf/symbol.c:209-235 | the visibility of every symbol outside choices, over all its prompts, is what the written conditions give, despite expr_trans_bool |
| SymCycles.OffCycles | kconf/symbol.c:1206-1273 | a symbol whose check ended without any report is on no cycle of references |
| SymCycles.Checker.PrintRecursive | kconf/symbol.c:1128-1204 | what is printed is a real cycle: each symbol refers to the next and the last to the first |
| SymCycles.Checker.CheckExprDeps | kconf/symbol.c:1206-1238 | without a report all symbols of the expression have been checked; the stack and the flags of symbols under check are restored |
| SymCycles.Checker.CheckSymDeps | kconf/symbol.c:1241-1273 | without a report all references of the symbol have been checked |
| SymCycles.Checker.CheckDeps | kconf/symbol.c:1312-1344 | a returned symbol is still under check further down the stack; without a report the symbol is placed after all it refers to |
| SymCycles.CheckAll | kconf/zconf.y:554-559 | every report is a cycle; without a report no checked symbol is on a cycle, and the order in which checks ended is topological; the error count stays 0 |
| SymValues.BoolNeverM | kconf/symbol.c:405-443 | no bool symbol evaluates to m |
| SymValues.ValuesAreGood | kconf/symbol.c:357-498 | the computed values are a well-typed valuation: no bool is m, and the text of a bool or tristate is its value |
| SymValues.MemberVisibility | kconf/symbol.c:221-235 | while its choice is at y a member is visible as y or not at all |
| SymValues.CalcChoiceVisible | kconf/symbol.c:278-334 | sym_calc_choice picks a visible member, and none only if no member is visible |
| SymValues.ChoiceExclusive | kconf/symbol.c:357-498 | a choice at y has exactly one member at y, its pick, and all others at n, for every user setting |
| SymExact.VisibleExactly | kconf/symbol.c:209-235 | a symbol in no choice is as visible as its highest prompt, with an m counted as y unless it is a tristate with modules |
| SymExact.DefaultExactly | kconf/symbol.c:424-430 | the defaults contribute the lower one of the condition and the value of the first default whose condition is not n, and n if there is none |
| SymExact.TristateExactly | kconf/symbol.c:399-445 | with modules a tristate in no choice is the highest of default, imply and select or, given a visible prompt and a user value, that value up to the visibility but not below the select, an m being y if implied to y |
| SymExact.BoolExactly | kconf/symbol.c:399-445 | a bool in no choice is y if and only if the user, given a visible prompt, or else a default or imply, or in any case a select is not n |
| SymExact.CanPickExactly | kconf/symbol.c:221-233 | a member of a choice at y is visible if and only if it has a prompt at y, or at m and is a bool |
| SymExact.PickExactly | kconf/symbol.c:278-334 | sym_calc_choice picks the user's pick if visible, else the member of the first default whose condition is not n and whose member is visible, else the first visible member |
| SymExact.ChoiceExactly | kconf/symbol.c:278-334 | and in the values of a configuration that member is the one at y |
| SymExact.ChoiceValueExactly | kconf/symbol.c:399-465 | the value of a tristate choice: the user's up to the visibility, not below the select, and n instead of y if no member is visible |
| SymExact.MemberBesidesPick | kconf/symbol.c:405-443 | while its choice is not y, a member is m if it is visible as m and the user has set it, and n otherwise |
| SymExact.RangeExactly | kconf/symbol.c:511-531 | sym_tristate_within_range accepts a value if and only if the select is below the visibility, the value is not above it, and it would be the symbol's value if set |
| SymExact.BoolRange | kconf/symbol.c:511-531 | a visible bool that nothing selects can be set to y and to n |
| SymExact.TristateRange | kconf/symbol.c:511-531 | a visible tristate that nothing selects or implies can be set to exactly the values up to its visibility |
| SymSet.ValueAgrees | kconf/symbol.c:357-498 | a symbol's value depends only on the symbols its expressions refer to, and for members on what its choice refers to |
| SymSet.Determined | kconf/symbol.c:357-498 | without recursive dependencies the user's settings determine all values |
| SymSet.SilentMeansRanked | kconf/symbol.c:1241-1273 | for symbols in no choice and implied by none, a silent search ranks all symbols below what refers to them |
| SymSet.CheckThenDetermined | kconf/zconf.y:554-559 | and then any two valuations that fit the user's settings are the same |
| SymSet.ImplyCycleUnnoticed | kconf/symbol.c:1241-1273 | a symbol that implies itself: the search sees no reference, but both n and y fit |
| SymSet.SetThenRecompute | kconf/symbol.c:511-566 | a value that sym_tristate_within_range accepts is what the symbol evaluates to after it is set |
| SymSet.SetSameValue | kconf/symbol.c:532-537 | setting the current value again keeps it if and only if the symbol is not visible, is visible at least as that value, or is selected or implied to it |
| SymSet.SetSameLosesValue | kconf/symbol.c:532-537 | a concrete configuration in which setting the current value y turns it into m |
| SymEval.AnswersConsistent | kconf/symbol.c:357-498 | every configuration without recursive dependencies has values that fit together |
| SymEval.Evaluator.CalcExpr | kconf/expr.c:1026-1104 | expr_calc_value, which computes symbols on demand, returns the value of the expression under the final values |
| SymEval.Evaluator.CalcVisible | kconf/symbol.c:209-239 | the visibility under the final values |
| SymEval.Evaluator.CalcDeps | kconf/symbol.c:240-269 | the select and imply values under the final values |
| SymEval.Evaluator.PickMember | kconf/symbol.c:278-334 | the member that the relation says the choice picks |
| SymEval.Evaluator.CalcValue | kconf/symbol.c:357-498 | a symbol gets its final value although it is stored before those it triggers are done; nothing marked valid is touched again |
| SymEval.Evaluate | kconf/symbol.c:500-509 | evaluating all symbols yields exactly the values the configuration determines |
| SymEval.SetValue | kconf/symbol.c:532-566 | a refused value changes nothing; the current value becomes the user's without evaluation; any other accepted value is the value after evaluation |
| ConfigText.EscapeString | kconf/symbol.c:962-1003 | the escaped, quoted text with its NUL exactly fills the buffer size that was computed |
| ConfigText.UnquoteEscape | kconf/confdata.c:161-176 | reading a quoted text returns the string that was quoted, whatever follows |
| ConfigText.UnquoteUnterminated | kconf/confdata.c:161-181 | quoted text without its closing quote is refused |
| ConfigText.UnquoteInPlace | kconf/confdata.c:164-175 | the in-place loop leaves the unquoted string in the buffer, or reports that there is no closing quote |
| ConfigLine.CheckString | kconf/symbol.c:591-632 | the loops of sym_string_valid accept exactly the valid texts |
| ConfigLine.IntValidExactly | kconf/symbol.c:598-610 | the valid texts of an int are the decimal texts of the integers without leading zeros, and -0 |
| ConfigLine.ReadReturn | kconf/confdata.c:349-358 | a return before the newline is no part of a value |
| ConfigLine.UnsetLine | kconf/confdata.c:316-347 | the comment for an unset symbol gives a bool or tristate the value n, and others none |
| ConfigLine.ReadIsValue | kconf/confdata.c:126-194 | whatever a line says, the value read is legal for the symbol's type |
| ConfigLine.SetFromBuffer | kconf/confdata.c:126-194 | conf_set_sym_val on the line buffer gives the value the text stands for and the type a symbol without one gets, and leaves what is before it alone |
| ConfigLine.RoundTrip | kconf/confdata.c:487-508 | a printed line reads back as the printed value for every type, except that an m written without modules reads back as n |
| ConfigLine.OtherSymbols | kconf/confdata.c:316-374 | and gives no value to any other symbol |
| MmuSafety.RunKeepsInv | compat/i915_gem_mmu_notifier.c:17-164 | the protocol invariant holds in every state of every run |
| MmuSafety.ReaderSafety | compat/i915_gem_mmu_notifier.c:91-164 | if read_retry says no, no callback hit the subscription since read_begin returned, and no invalidation that hit it before is still under way |
| MmuSafety.ReaderUndisturbed | backport-include/linux/i915_gem_mmu_notifier.h:99-119 | the same between any two moments of a run |
| MmuSafety.ReaderIsKnown | compat/i915_gem_mmu_notifier.c:340-372 | if read_retry says no, every invalidation under way found the live subscription in the tree, and one that is through and overlaps it has called it back: none goes by unnoticed because of an insert |
| MmuSafety.InsertedWaits | compat/i915_gem_mmu_notifier.c:340-372 | a new subscription has the current sequence, so that its readers wait, if and only if an invalidation is under way |
| MmuSafety.RetryHasReason | backport-include/linux/i915_gem_mmu_notifier.h:99-119 | read_retry says yes only if a callback has recorded itself since read_begin took the sequence |
| MmuSafety.NoStuckWaiters | compat/i915_gem_mmu_notifier.c:154-155 | while no invalidation is under way, every waiting reader and remover can go on |
| MmuSafety.IdleReadReturns | compat/i915_gem_mmu_notifier.c:137-155 | and read_begin returns without waiting |
| MmuSafety.UnseenLeavesNoTrace | compat/i915_gem_mmu_notifier.c:17-89 | an invalidation that finds nothing and is alone leaves the state as it was |
| MmuSafety.SeenMovesOn | compat/i915_gem_mmu_notifier.c:17-89 | one that finds something makes the sequence odd and then the next even number |
| MmuNotifier.OverlapsExactly | compat/i915_gem_mmu_notifier.c:27-29 | subscriptions found are those with an address in common with the range |
| MmuSafety.TraversalIsExact | compat/i915_gem_mmu_notifier.c:167-197 | from a start that found a node to its end the sequence stays odd and the tree unchanged; a traversal that was not aborted has called each overlapping subscription exactly once |
| MmuSafety.CalledIsAlive | compat/i915_gem_mmu_notifier.c:40-51 | a subscription about to be called back is in the tree and its removal has not returned |
| MmuSafety.DeferralExact | compat/i915_gem_mmu_notifier.c:53-89 | whenever the lock is free, the active count is the number of invalidations under way, count 0 means an even sequence, an even sequence means an empty deferred list, recorded sequences are odd and not ahead, and removed subscriptions are in neither tree nor list |
| MmuSafety.RemovedStaysOnlyForDrain | compat/i915_gem_mmu_notifier.c:400-445 | a subscription whose removal returned is in the tree if and only if the drain under way has not come to it |
| MmuSafety.RemovalCanReturnEarly | compat/i915_gem_mmu_notifier.c:443-445 | a run in which that happens |
| MmuSafety.WarningsNeverFire | compat/i915_gem_mmu_notifier.c:347-434 | the two WARN_ON conditions of insert and remove cannot arise |
| MmuObject.DrainAllFacts | compat/i915_gem_mmu_notifier.c:74-85 | the drain links what waits to be added, unlinks what waits to be removed, and empties the list |
| MmuObject.Subscriptions.IterNext | compat/i915_gem_mmu_notifier.c:40-51 | the iterator returns the next overlapping subscription in order, if any |
| MmuObject.Subscriptions.InvStartRange | compat/i915_gem_mmu_notifier.c:17-38 | the start section of the protocol |
| MmuObject.Subscriptions.InvEnd | compat/i915_gem_mmu_notifier.c:53-89 | the end section with the whole drain |
| MmuObject.Subscriptions.Insert | compat/i915_gem_mmu_notifier.c:309-373 | the insert section; ranges that overflow are refused and change nothing |
| MmuObject.Subscriptions.Remove | compat/i915_gem_mmu_notifier.c:417-435 | the removal section |
| MmuObject.Subscriptions.Invalidate | compat/i915_gem_mmu_notifier.c:167-197 | undisturbed, it calls each overlapping subscription once; aborted, it has ended its range again |
| RbTree.RotateSetParents | compat/rbtree.c:57-65 | one node takes the place, parent and colour of the other, which becomes its child |
| RbInsert.LinkNode | compat/rbtree.h:79-86 | the node becomes a red leaf in the given empty place |
| RbInsert.InsertColor | compat/rbtree.c:67-190 | __rb_insert terminates with a red-black tree of the same nodes in the same order, with all parent and child links right |
| RbInsert.Insert | compat/rbtree.h:79-86 | linking into any empty place of a red-black tree and repairing puts the node at that place in the order |
| RbErase.SiblingExists | compat/rbtree.c:203-212 | a place whose paths lack a black node has a sibling, and a red sibling has two black children |
| RbErase.EraseColor | compat/rbtree.c:196-356 | from a place one black node short the fixup terminates with a red-black tree of the same nodes in the same order, with all links right |
| RbErase.RemovedLeaf | compat/rbtree.c:388-394 | taking a black leaf out of a red-black tree leaves such a place |
| RbWalk.First | compat/rbtree.c:414-437 | rb_first and rb_last return the ends of the order |
| RbWalk.Next | compat/rbtree.c:440-498 | rb_next and rb_prev return the neighbour in the order, and NULL for a node in no tree |
| SgPages.PagesAreFlat | compat/compat-3.9.c:77-99 | the pages of a list, one after the other, hold exactly its bytes |
| SgPages.EveryPageUsed | compat/compat-3.9.c:77-80 | the pages counted for an entry that is not empty are exactly those with bytes of it |
| SgPages.PageIter.Next | compat/compat-3.9.c:82-99 | the page iterator returns these pages one by one and then stops |
| SgCopy.MapIter.GetNextPage | compat/compat-3.9.c:102-123 | no byte is lost or seen twice from page to page |
| SgCopy.MapIter.Stop | compat/compat-3.9.c:201-225 | the iterator moves over what was consumed |
| SgCopy.MapIter.Next | compat/compat-3.9.c:164-184 | the mapped window is the next bytes of the flat view |
| SgCopy.MapIter.Skip | compat/backport-3.11.c:107-126 | it succeeds exactly if that many bytes are left, and moves over them |
| SgCopy.CopyBuffer | compat/backport-3.11.c:139-176 | it copies exactly the bytes from skip on, up to the buffer length, in the given direction, and touches nothing else |
| SgCopy.DisjointDistinct | compat/compat-3.9.c:77-99 | entries on disjoint pages have no byte address in common |
| SgCopy.WriteAndReadBack | compat/backport-3.11.c:139-176 | on a list with disjoint pages, sg_copy_buffer to the list and then from it into another buffer returns the bytes; all bytes outside the section, and the rest of that buffer, are as before |
| MemcgCounters.AddUpwards | compat/memcontrol.c:72-73 | a flush reaches the group and all groups above it, and no others |
| MemcgCounters.TotalAdd | compat/memcontrol.c:63-76 | one more value in one place changes the totals of exactly the groups above it |
| MemcgCounters.Memcg.ModState | compat/memcontrol.c:53-77 | totals stay equal to what was flushed in each subtree, pending values stay within the threshold, and flushed and pending add up to what was added; a value within the threshold stays pending and changes no total, any other is flushed whole |
| MemcgCounters.Memcg.ModLruvecState | compat/memcontrol.c:79-108 | the same for the lruvec counters |
| MemcgCounters.Memcg.Run | compat/memcontrol.c:53-108 | and over any sequence of updates, after which both kinds of counters have been given exactly the sum of their updates |
| MemcgCounters.Drift | compat/memcontrol.c:58-76 | a group's total is off by at most threshold times CPUs times groups in its subtree |
| MemcgCounters.LruDrift | compat/memcontrol.c:95-107 | the same for the lruvec totals |

## Left out

- In-place rewriting of expression nodes: expressions are values here, so that freeing, sharing and reuse of `struct expr` nodes is not modelled.
- Expression nodes of type E_LIST and E_RANGE: they do not reach the simplifier.
- ExprTransform.TransCompareExact: `expr_trans_compare` with m is not modelled, because no caller passes it.
- Weak memory ordering, lockdep, mm reference counts and wrap-around of the MMU sequence: steps are sequentially consistent and the sequence is a natural number.
- The interval tree itself is a set of ranges with an ordered iterator; `mn_itree_release` is not modelled.
- `__rb_erase_augmented` is in a kernel header that is not part of this model; the fixup starts from the defect it is called with. Augment callbacks, `rb_replace_node` and the postorder walk are not modelled.
- MenuFinalize.Finalize: the part of `menu_finalize` that sets choice types, flags choice values, adds the choice's `=y` dependency to bool members of tristate choices, and collects rev_dep, implied and dir_dep is not modelled; nor is `sym_check_prop`.
- MenuVisible.VisibilityAsWritten: members of choices are left out, because their conditions also get that `=y` dependency.
- SymCycles.Checker.CheckDeps: symbols in choices (`sym_check_choice_deps`) are not modelled.
- SymCycles.CheckAll: nor are they here.
- SymEval.Evaluator.CalcValue: string, int and hex symbols are fixed inputs of the evaluation; `sym_validate_range`, SYMBOL_WRITE, SYMBOL_CHANGED, SYMBOL_NEED_SET_CHOICE_VALUES and the clearing of a choice's SYMBOL_DEF_USER are left out.
- MODULES has a fixed value during an evaluation.
- SymEval.SetValue: members of choices and choices are not set by it.
- ConfigLine.RoundTrip: the NULs that `conf_read_simple` writes into the line to cut off the name are not modelled; lines are split as strings.
- SgCopy.MapIter.Skip: a negative distance and unsigned overflow of offsets are not modelled.
- Counter widths (`long`) and concurrent updates on one CPU are not modelled; a CPU's update is one step.
- User interface, file handling, regex search, the Kconfig grammar, and the other compatibility shims: mostly wrappers, which would only add easy members.
