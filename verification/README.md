# Verified model of the ontology projector

A Dafny 4.11 model of the parts of the projector in which state, order and recursion
meet: the flattening of segmented ontology views into leaf plans, the native checker of
those plans, the concurrent one-shot compilers with their retained role maps and batched
output, the validator of encoded columns, and the output and lifecycle policies around
them.

`dafny verify dfyconfig.toml` checks everything.

## Structure

**Segmented views.**  `Manifests` holds views, references, postings, scope maps and
tables; views are known by identity and live in a finite map.  `Unfoldings` defines the
finite tree of reference paths, cut below INCLUDE; every specification is a recursion
over it.  `LeafPlans` defines the plan of an unfolding.  `Traversal` says what a memoised
depth-first search with an active set computes, in either of the two orders in which the
languages test the active set and the memo table; `LeafResolver` (Python) and
`PathEnumerator` (Rust) are the two explicit-stack loops, proved against the recursive
definitions; `DirectMembers` is the resolver's shortcut.  `Parts` says what a walk has
seen where there is no finite unfolding, and `BackReferences` when a walk fails, on the
unfolding alone.  `PlanMeaning` defines what a view means without plans and proves that
flattening keeps it.  `PlanChecker` and `RootPlan` are the native validators and
`RootPairing` is the Python maker of ROOT rows; `Cycles`, `LeafPaths`, `PlanTheorems`,
`RootTheorems` and `RefusedRoot` connect producers, checkers and meaning.  `PathLaws` and
`MeaningLaws` say path by path, with the references and the rows of scope maps alone, what
plans and meanings are.

**Compilers.**  `BatchOutput` is the output record, as a class whose methods are its
critical sections and as values; `CompilerSteps` is the system of atomic steps of any
number of compilers sharing one set of role maps.

**Columns.**  `Layouts` defines tables, their layout and parsing; `LayoutRoundTrip` and
`ByteColumns` prove that they undo each other down to the bytes; `ColumnValidator` is the
scan in place and `RootSearch` the search over the validated rows.  `ColumnLaws` says in
plain numbers which columns are accepted and what their rows say.

**Policies.**  `EdgePolicies` and `EdgeEngines` are the output policy with the native
engine and the Python loop; `ScalaSessions` is the lifecycle of Scala-instance calls;
`Axioms` and `Compilations` are the scalar compiler, eager and lazy; `RoleLaws` and
`EdgeLaws` say what role maps and edges are as relations to axioms.  `Sorting` is shared.

## Where the code does not do what one might expect

* **INCLUDE back references.**  The Python resolver consults its memo table before the
  active set, the Rust enumeration does it the other way round.  On graphs where an
  INCLUDE reference closes a cycle the resolver's outcome depends on the order of
  references (`PlanTheorems.OrderOfReferencesDecides`), and a manifest the resolver
  flattens can have no acceptable plan (`PlanTheorems.BackReferenceDisagrees`).  Where no
  view repeats on a reference path the two agree on cycles.  The exact conditions are
  `PlanTheorems.PlannedIffPlannable` and `PlanTheorems.CheckerAcceptsExactlyThePlan`, and
  `BackReferences.WalkIffNoBackReference` says them of the unfolding alone.
* **Local resolution.**  A source of INCLUDE is resolved locally.  Resolving it fully and
  filtering afterwards would be refused where the source meets itself again below itself
  (`PlanTheorems.LocalResolutionDiffers`); elsewhere it is the same
  (`PlanMeaning.IncludeNeedsOnlyOwnRows`).
* **ROOT below INCLUDE.**  The maker of ROOT rows follows the CLOSURE paths wherever they
  lead, the native validator follows an INCLUDE reference to the local segment of its
  source only, so that rows can be made and refused (`RefusedRoot.MadeAndRefused`).  The
  exact condition is `RootTheorems.MadeRowsPassIff`.
* **Containers without a local segment.**  The Rust enumeration also demands that their
  columns are empty altogether, the resolver only that they have no roots
  (`PlanTheorems.EmptyContainerDisagrees`).
* **Early returns.**  Between `begin` and the guarded body of a compile call, and between
  taking the stream and preparing a batch, an allocation failure returns directly.  A
  compiler whose call has ended is still running if and only if the call ended that way
  and no cancel succeeded on the compiler (`CompilerSteps.ReturnedIsSettled`,
  `CompilerSteps.EarlyReturnHappens`); an output that lost its stream never delivers
  again (`CompilerSteps.DroppedDrainIsStuck`, `CompilerSteps.DroppedDrainHappens`).
* **Cancelled engines.**  `EdgeEngine.cancel` clears the set of seen edges but no counter,
  so afterwards raw edges are distinct plus duplicate edges only if there were none
  (`EdgeEngines.EdgeEngine.Stats`, `EdgeEngines.CancelForgetsEdges`).
* **Late cancellation.**  The native preparation commits its role maps before it looks at
  the cancellation token, so a cancelled Scala-instance call can leave an update behind
  (`ScalaSessions.LateRaiseShows`).  Exactly when later calls are affected, and when the
  shadow differs from the native copy, is `ScalaSessions.CallsContinue` and
  `ScalaSessions.ShadowMeetsNative`.
* **Sub-properties.**  Of several sub-properties of one property only the one whose axiom
  comes last in hash order is recorded, with what was recorded for it before
  (`RoleLaws.SubrolesAfter`, `RoleLaws.TwoChildrenKeepOne`).
* **Inverse assertions.**  A lazy compilation that stops at one may not have updated its
  role maps, an eager one has (`Compilations.StoppedRunsDiffer`); the exact condition is
  `Compilations.LazyAndEagerAgree`.

## Model

| member | source | states |
|---|---|---|
| LeafResolver.ResolveLeafPlan | src/pyowl2vec_star_projector/encoded.py:862-1167 | The recursive branch, an explicit-stack, memoised loop, terminates on every graph and its every outcome is well founded: a plan is returned only when a finite unfolding exists, no active view was met, every view is valid and no limit is exceeded, and it then equals the recursive plan row by row; every refusal is shown by a finite part of what lies below the view, and so holds of its unfolding whenever there is one; a reported cycle is a cycle of references |
| LeafResolver.Start | src/pyowl2vec_star_projector/encoded.py:879-921 | Entering a view refuses an active view, then too much work, then too many overlays, in this order, and otherwise charges the view once and opens a frame at the right depth |
| LeafResolver.Visit | src/pyowl2vec_star_projector/encoded.py:1083-1117 | Turning to the next reference keeps the loop invariant or refuses for a reason that a finite part of the graph shows |
| LeafResolver.Finish | src/pyowl2vec_star_projector/encoded.py:1119-1150 | Completing a view adds its local leaf last, charges it, memoises exactly the plan of its unfolding and leaves the active set |
| LeafResolver.MergeMove | src/pyowl2vec_star_projector/encoded.py:1050-1081 | Merging a resolved source keeps every frame equal to the rows of the children it has completed, or shows that the whole plan has none |
| LeafResolver.NextRefusal | src/pyowl2vec_star_projector/encoded.py:1083-1117 | Refusing one view, by validity, work, depth, leaves or cycle, is shown by a finite part of what lies below the root and refuses the whole unfolding, also when the answer comes from the memo table |
| LeafResolver.RecallingCharges | src/pyowl2vec_star_projector/encoded.py:1097-1109 | A memoised source is charged its own number of rows again, so that the leaf counter stays equal to the leaves of the completed subtrees |
| LeafResolver.LeavingCharges | src/pyowl2vec_star_projector/encoded.py:1119-1137 | Leaf charging is conserved when a view is left |
| LeafResolver.EnteringCharges | src/pyowl2vec_star_projector/encoded.py:879-897 | Validation work is charged once per distinct view, never twice |
| LeafPlans.RowsPerLeaf | src/pyowl2vec_star_projector/encoded.py:772-817 | No reference drops a row of a plan: a plan has exactly one row for every local leaf |
| LeafPlans.LocalRows | src/pyowl2vec_star_projector/encoded.py:929-962 | A source resolved locally yields its own leaf or nothing |
| Unfoldings.UnfoldingIsUnique | src/pyowl2vec_star_projector/encoded.py:820-860 | A view and a selection have at most one unfolding, which is what makes a memo table sound |
| Unfoldings.SpanIsWorstPath | src/pyowl2vec_star_projector/encoded.py:905-921 | The overlay test on cached relative spans is exact: it fails exactly when some path of the unfolding has more overlay containers than the limit |
| Cycles.UnfoldingIffAcyclic | native/src/lib.rs:4413-4509 | A view has a finite unfolding exactly when the references it reaches exist and no cycle of references that are not INCLUDE can be reached from it; every successful enumeration or plan therefore shows the graph acyclic |
| Cycles.AcyclicHasNoRepeat | native/src/lib.rs:4413-4509 | Where no view repeats on a reference path, no view repeats on a path of the unfolding |
| Traversal.WalkWithoutRepeats | src/pyowl2vec_star_projector/encoded.py:1083-1117 | Where no view repeats on a path, neither order of the two tests ever meets an active view |
| Traversal.ActiveFirstIsStricter | native/src/lib.rs:4439-4453 | Testing the active set before the memo table only refuses more, and accepts with the same set of completed keys |
| Traversal.SearchEnters | src/pyowl2vec_star_projector/encoded.py:1110-1117 | Pushing a new (view, selection) keeps the depth-first search invariant |
| Traversal.SearchRecalls | src/pyowl2vec_star_projector/encoded.py:1097-1109 | Taking a finished (view, selection) from the memo table keeps the invariant: the memo holds the unfolding that would have been walked |
| Traversal.SearchLeaves | src/pyowl2vec_star_projector/encoded.py:1132-1145 | Finishing a view completes its unfolding and hands it to the view that waits for it |
| Traversal.SearchInside | src/pyowl2vec_star_projector/encoded.py:923-1147 | At every moment the suspended stack is a path into any unfolding of the root, with its depth, leaves and keys as parts of the whole |
| Traversal.EnteringIsNew | native/src/lib.rs:4392-4528 | Each (view, selection) is pushed at most once: entering strictly shrinks a finite set |
| Parts.PartInUnfolding | src/pyowl2vec_star_projector/encoded.py:923-1147 | Views, overlays and leaves of a finite part below a view belong to any unfolding of the view |
| Parts.NextPart | src/pyowl2vec_star_projector/encoded.py:1083-1117 | What a suspended stack has seen, with what is known of the next source, is such a part: it has the depth and the leaves of the stack |
| Parts.NestHasAll | src/pyowl2vec_star_projector/encoded.py:923-1147 | It also has every memoised key and every active view |
| Parts.ActiveNextIsCycle | src/pyowl2vec_star_projector/encoded.py:886-888 | Meeting an active view shows a cycle of references, whether the unfolding is finite or not |
| PlanMeaning.PrunedChainIsExact | src/pyowl2vec_star_projector/encoded.py:739-769 | Leaving out one scope map that does not apply gives every anonymous scope of the table the same name as applying it |
| PlanTheorems.KeptChainIsExact | src/pyowl2vec_star_projector/encoded.py:718-769 | Keeping only the scope maps that apply gives every anonymous scope of the table the same name as applying every map met on the way, innermost first |
| PlanTheorems.ChainsAgree | native/src/lib.rs:4803-4812 | For every row of a plan, the chain the resolver built bottom-up is the chain the checker rebuilds from the maps met on the way down |
| PlanMeaning.IncludeNeedsOnlyOwnRows | src/pyowl2vec_star_projector/encoded.py:772-807 | Resolving an INCLUDE source locally gives the rows that resolving it fully and filtering afterwards would give, if and only if the full plan has no row on the source’s table below the source itself |
| PlanMeaning.IncludeWithoutRepeats | src/pyowl2vec_star_projector/encoded.py:772-807 | Where no view repeats both ways exist and agree |
| PlanTheorems.LocalResolutionDiffers | src/pyowl2vec_star_projector/encoded.py:772-807 | A concrete source that meets itself again: filtering its full plan is refused, its local plan is not |
| PlanMeaning.PlanIsWellShaped | src/pyowl2vec_star_projector/encoded.py:792-797 | Where no view repeats on a path no row ever receives a second selector, so the unsupported branch is unreachable |
| PlanMeaning.ReferenceKeepsMeaning | src/pyowl2vec_star_projector/encoded.py:718-817 | One reference applied to rows selects and renames exactly what the reference does to the roots those rows stand for |
| PlanMeaning.PlanKeepsMeaning | src/pyowl2vec_star_projector/encoded.py:862-1167 | Flattening preserves meaning: on acyclic valid graphs the plan exists and selects exactly the roots that the nested overlays and composites mean, at the same paths, in the same order, with the same renamed scopes |
| PlanMeaning.CutPlanKeepsMeaning | src/pyowl2vec_star_projector/encoded.py:862-1167 | The same for every plan of every unfolding with valid manifests, also where views repeat through INCLUDE: a row of a source below itself already carries a selector, so that EXCLUDE declines instead of dropping roots |
| PlanMeaning.CutKeepsMeaning | src/pyowl2vec_star_projector/encoded.py:929-962 | Cutting the unfolding below INCLUDE references loses nothing of the meaning |
| PathLaws.PlannedPaths | src/pyowl2vec_star_projector/encoded.py:923-1150 | A plan has exactly one row for every path that follows references, below INCLUDE none, to a container with a local segment or to a direct view that is not empty or whose leaf is retained, and the row is bound to the view the path leads to |
| PathLaws.MapTakesItsRow | src/pyowl2vec_star_projector/encoded.py:759-766 | The row of a scope map for a scope gives the scope its new name |
| PathLaws.PlannedScopes | src/pyowl2vec_star_projector/encoded.py:718-769 | The maps kept for a planned row take each scope of its table exactly where the maps of the references on the row’s path take it one after the other, each by its own row for the scope or not at all |
| PathLaws.PlannedChain | src/pyowl2vec_star_projector/encoded.py:718-769 | A planned row keeps a map of its path exactly when some node of its table has, at that place of the path, the name of a row of the map |
| PathLaws.TwoMapsRename | src/pyowl2vec_star_projector/encoded.py:759-766 | Two concrete maps on one path, the outer one for names that the inner one gives: both are kept, and scope 1 is called 3 |
| MeaningLaws.PlannedSelectors | src/pyowl2vec_star_projector/encoded.py:772-807 | The selectors of a planned row keep exactly the roots that the references on its path choose: INCLUDE listed roots of its source’s own table, EXCLUDE all others |
| MeaningLaws.SelectorsChooseTheirLists | src/pyowl2vec_star_projector/encoded.py:3253-3459 | A valid INCLUDE chooses as many roots as it lists, at least one, and a valid EXCLUDE spares all but as many |
| MeaningLaws.ManifestShape | src/pyowl2vec_star_projector/encoded.py:3253-3459 | A valid manifest is of one of three families, tells its members apart, never refers to its own view, and renames no scope to itself |
| MeaningLaws.PlanInPathOrder | src/pyowl2vec_star_projector/encoded.py:923-1150 | Rows come in the order of their paths |
| MeaningLaws.MeaningIsSelected | src/pyowl2vec_star_projector/encoded.py:739-807 | The meaning of a view consists of exactly the roots that its paths choose, with the scopes that the maps on the path give |
| MeaningLaws.MeaningAscends | src/pyowl2vec_star_projector/encoded.py:923-1150 | The meaning is in order of paths and roots, so that its members determine it |
| MeaningLaws.PlanSelects | src/pyowl2vec_star_projector/encoded.py:862-1167 | What any returned plan selects, in terms of paths alone |
| PathLaws.LimitsAreInclusive | src/pyowl2vec_star_projector/encoded.py:879-921 | A published limit is the largest allowed value of the work of the visited views, of the rows, and of the overlays on one path; a refusal shows a larger value |
| PlanTheorems.CompleteIffAcyclic | src/pyowl2vec_star_projector/encoded.py:820-860 | A view can be read completely, INCLUDE sources too, exactly when no view repeats on its reference paths |
| PlanTheorems.AcyclicPlan | src/pyowl2vec_star_projector/encoded.py:862-1167 | On a valid graph without reference cycles the resolver plans if and only if there are at least two leaves and the limits suffice, the plan then means what the view means, and neither a cycle nor an invalid view is reported |
| PlanTheorems.EveryPlanKeepsMeaning | src/pyowl2vec_star_projector/encoded.py:862-1167 | Every plan the resolver returns, on any graph, means what the unfolding of its view means |
| PlanTheorems.PlanIffOneSelectorEach | src/pyowl2vec_star_projector/encoded.py:772-817 | A plan exists exactly when no leaf is met by two selectors on its path |
| PlanTheorems.PlannedIffPlannable | src/pyowl2vec_star_projector/encoded.py:862-1167 | On any graph the resolver plans if and only if the view has an unfolding without a back reference, with valid views, at least two leaves, no leaf met by two selectors, and within the limits; a cycle it reports is a back reference and a cycle of references |
| PlanTheorems.OrderOfReferencesDecides | src/pyowl2vec_star_projector/encoded.py:1083-1117 | Two concrete manifests that differ in the order of two references only: the resolver flattens one and reports a cycle in the other, without any limits |
| PlanTheorems.CheckerAcceptsExactlyThePlan | native/src/lib.rs:4829-4867 | Under equal limits the native checker accepts exactly the row orders of the plan the Python resolver returns if there is no back reference and containers without a local segment are empty, and nothing otherwise |
| PlanTheorems.AcyclicMeetsChecker | native/src/lib.rs:4413-4453 | Where no view repeats there is no back reference, and only the emptiness of tables without a local segment is left of the condition |
| BackReferences.WalkIffNoBackReference | native/src/lib.rs:4436-4456 | In either order of the two tests a walk meets an active view exactly when some view, at a place where its key does not occur to the left of the path, has a child that is on the path; where the memo table comes first, the child’s key must not occur to the left either |
| PlanTheorems.BackReferenceDisagrees | native/src/lib.rs:4436-4456 | A concrete INCLUDE back reference: the resolver flattens the manifest, and no plan for it passes the checker, whatever its limits |
| PlanTheorems.EmptyContainerDisagrees | native/src/lib.rs:4020-4039 | A concrete composite whose own table has a node and no root: the resolver flattens it, and no plan for it passes the checker |
| LeafPaths.PathsArePrefixFree | native/src/lib.rs:4341-4390 | The leaf paths of an unfolding are pairwise distinct and none is a prefix of another, so the repeated-path error cannot occur |
| LeafPaths.PlanHasPaths | native/src/lib.rs:4829-4867 | The paths of a plan are exactly the paths of the unfolding |
| LeafPaths.PathPerLeaf | native/src/lib.rs:4341-4390 | There is one path for every local leaf |
| PathEnumerator.EnumerateLeafPaths | native/src/lib.rs:4392-4528 | The native explicit-stack enumeration terminates on every graph, returns exactly the path set and work of the recursive definition, and every refusal is shown by a finite part of what lies below the root |
| PathLaws.EnumeratedPaths | native/src/lib.rs:4290-4390 | The returned set holds exactly the paths that follow references to a leaf, said of the graph alone |
| PathLaws.DirectViewsHavePaths | native/src/lib.rs:4290-4320 | With retained empty leaves every direct view of the unfolding has its path |
| PathEnumerator.VisitNode | native/src/lib.rs:4092-4249 | A view is validated and charged on its first visit only |
| PathEnumerator.VisitChild | native/src/lib.rs:4429-4486 | Turning to the next child tests the active set first, then validity, then the memo table, and keeps the invariant or refuses truly |
| PathEnumerator.Finish | native/src/lib.rs:4487-4508 | Completing a view memoises its topology and merges it into the view that waits |
| PathEnumerator.MergeKeepsFrame | native/src/lib.rs:4341-4390 | Merging a child topology keeps a frame equal to the paths and span of its completed children |
| PathEnumerator.RootValidatesAll | native/src/lib.rs:4251-4288 | A successful enumeration has validated every view of the unfolding |
| PlanChecker.CheckRow | native/src/lib.rs:4711-4827 | A row is accepted if and only if it is the one row its path demands: same table, selectors and retained scope-map chain |
| PlanChecker.RetainedChain | native/src/lib.rs:4803-4812 | The loop computes the chain that wraps the maps met on the way down, innermost first |
| PlanChecker.CheckRows | native/src/lib.rs:4848-4866 | All rows pass if and only if their paths are distinct, are exactly the expected ones, and every row is the one its path demands |
| PlanChecker.TargetIsForced | native/src/lib.rs:4711-4827 | A path leads to one table only |
| PlanChecker.PlanIsDemanded | native/src/lib.rs:4711-4827 | Every row of the recursive plan is the row its path demands |
| PlanChecker.NoPlanNoClaim | native/src/lib.rs:4775-4797 | When two selectors meet, some leaf path admits no row at all |
| PlanChecker.ClaimsIffPlan | native/src/lib.rs:4829-4867 | Rows claim all the leaf paths exactly when they are the plan in some order |
| PlanChecker.ValidateLeafPlan | native/src/lib.rs:4829-4867 | The validator accepts if and only if the rows are the plan in some order, there are at least two of them, and the enumeration succeeds within the limits; it reports the validation work |
| RootPlan.CheckPair | native/src/lib.rs:4882-4979 | Following one path through both manifests succeeds if and only if every reference on it has the same role, owner and token on both sides and the path ends at both rows’ tables |
| RootPlan.FollowBoth | native/src/lib.rs:4894-4967 | Both manifests are followed to the views the path names |
| RootPlan.PairedPaths | native/src/lib.rs:4994-5007 | CLOSURE and ROOT rows are paired by equal, distinct paths |
| PathLaws.PairedRows | native/src/lib.rs:4882-4979 | Paired rows have one path and one owner, are bound to the views their paths lead to, and take references of one kind, source owner and, between members, token |
| PathLaws.RowEnds | native/src/lib.rs:4674-4709 | A row may end at a view’s own segment or, in ROOT, at an overlay or composite that has none and whose table is empty |
| RootPlan.ValidateRootPlan | native/src/lib.rs:4982-5045 | A ROOT plan is accepted if and only if its rows pair the CLOSURE rows, cover every ROOT leaf path, and each is the row its path demands or stands for a canonically missing local segment |
| RootPlan.ExtraTableIsEmpty | native/src/lib.rs:4674-4709 | A row at a path that is no ROOT leaf is bound to a table without roots |
| RootPlan.RootRowsAreThePlan | native/src/lib.rs:5008-5037 | An accepted ROOT plan shows that ROOT has a plan of its own; the rows at ROOT leaf paths are exactly that plan and all others are bound to tables without roots |
| RootPlan.RootPlanKeepsMeaning | native/src/lib.rs:4982-5045 | Every accepted ROOT plan, on any graph, selects exactly what the unfolding of ROOT means, and each row keeps its CLOSURE row’s path and owner |
| RootPlan.AcceptedRootHasPlan | native/src/lib.rs:5008-5037 | Accepting ROOT rows implies that no ROOT leaf is met by two selectors |
| RootPlan.CompleteRootKeepsMeaning | native/src/lib.rs:4982-5045 | Where ROOT can be read completely the accepted rows select what ROOT means with INCLUDE sources read in full |
| RootPlan.MissingEndIsLocal | native/src/lib.rs:4905-4922 | Where ROOT lacks the last segment CLOSURE has an overlay delta or a composite bridge there, although the code does not compare the role |
| RootPairing.ResolveRootPair | src/pyowl2vec_star_projector/encoded.py:1183-1412 | The Python maker of ROOT rows succeeds if and only if every CLOSURE path is paired with ROOT, selects one row, meets valid views and stays within the limits; its rows are the ones the paths select, and every refusal names a failing path, view or limit |
| RootPairing.PairRow | src/pyowl2vec_star_projector/encoded.py:1237-1402 | One path is followed through both manifests, with views validated and charged once and prefixes looked up, and its row selected |
| RootPairing.SelectRow | src/pyowl2vec_star_projector/encoded.py:1318-1345 | The references of a path are applied from the inside out |
| RootTheorems.SelectedIsDemanded | src/pyowl2vec_star_projector/encoded.py:1318-1345 | What the maker selects along a path is the row the native checker demands for it, unless the path goes on below an INCLUDE reference |
| RootTheorems.CoordinatedIffPaired | src/pyowl2vec_star_projector/encoded.py:1263-1365 | The maker’s conditions on the two paths are the native validator’s |
| RootTheorems.PlanIsClosurePlan | src/pyowl2vec_star_projector/encoded.py:862-1167 | Every plan of CLOSURE meets what the theorems on ROOT rows assume of CLOSURE rows |
| RootTheorems.MadeRowsPassIff | native/src/lib.rs:4982-5045 | The validator accepts the rows that were made if and only if the enumeration of ROOT succeeds, every ROOT leaf has a CLOSURE row, and no CLOSURE path goes on below an INCLUDE reference of ROOT |
| RootTheorems.PassingRowsAreMade | src/pyowl2vec_star_projector/encoded.py:1183-1412 | Whatever ROOT rows the validator would accept for a CLOSURE plan are the rows that are made, within the limits |
| RootTheorems.MadeRowsKeepMeaning | src/pyowl2vec_star_projector/encoded.py:1183-1412 | Under those conditions the made rows select what ROOT means |
| RefusedRoot.MadeAndRefused | src/pyowl2vec_star_projector/encoded.py:1318-1345 | A concrete CLOSURE plan whose ROOT rows are made and refused although the enumeration succeeds and every ROOT leaf is paired |
| DirectMembers.ResolveDirectMembers | src/pyowl2vec_star_projector/encoded.py:532-675 | The shortcut for plain members succeeds if and only if the composite’s table is empty, members differ in view and owner, all are valid and the work limit suffices |
| DirectMembers.TriedOnDirectMembers | src/pyowl2vec_star_projector/encoded.py:847-855 | Where all members are valid the shortcut is tried exactly on composites of direct views without a bridge |
| DirectMembers.ChargeMembers | src/pyowl2vec_star_projector/encoded.py:666-670 | The sum over the members charges every distinct view once |
| DirectMembers.ResolvePlan | src/pyowl2vec_star_projector/encoded.py:820-860 | Which branch answers, and what: the shortcut exactly where it is tried and succeeds; every other answer is justified as an answer of the recursive branch |
| DirectMembers.RefusalIsJustified | src/pyowl2vec_star_projector/encoded.py:847-860 | What refuses the shortcut refuses the recursive plan |
| DirectMembers.ShortcutKeepsMeaning | src/pyowl2vec_star_projector/encoded.py:642-675 | The shortcut’s rows, whose scope maps are kept whether they apply or not, select what the view means |
| DirectMembers.ShortcutIsPlan | src/pyowl2vec_star_projector/encoded.py:847-860 | The fast form selects the same roots as the recursive plan |
| BatchOutput.DirectBatchOutput.Install | native/src/lib.rs:619-634 | Installing a stream replaces the whole record; an empty stream is exhausted at once |
| BatchOutput.DirectBatchOutput.Cancel | native/src/lib.rs:656-665 | Closing succeeds exactly on a prepared output that is neither closed nor exhausted |
| BatchOutput.DirectBatchOutput.BeginDrain | native/src/lib.rs:2566-2605 | The first critical section of a drain: which of the six answers is given and the whole new record |
| BatchOutput.DirectBatchOutput.EndDrain | native/src/lib.rs:2624-2712 | The last critical section of a drain: a batch is delivered only if the output was not closed; a failed one puts the stream back |
| BatchOutput.DirectBatchOutput.State | native/src/lib.rs:644-654 | The reported state is active exactly while the output is open |
| BatchOutput.CommitAccounts | native/src/lib.rs:2681-2712 | Delivering a batch keeps the account: what was delivered is a prefix of what was issued, in full batches, and all counters follow |
| BatchOutput.RestoreAccounts | native/src/lib.rs:2624-2640 | A failed drain keeps the account unchanged |
| BatchOutput.CountersAtExhaustion | native/src/lib.rs:2695-2712 | At exhaustion of n edges with bound b there were ceil(n/b) batches and ceil(n/b)+1 boundary calls and the peak was min(b, n), whatever failed in between |
| BatchOutput.CeilingIsLeast | native/src/lib.rs:2695-2712 | The stated number of batches is the least that holds all edges |
| BatchOutput.CollectCoarse | native/src/lib.rs:2211-2274 | The coarse path emits the same edge sequence in ceil(n/256) chunks |
| CompilerSteps.StepKeepsInv | native/src/lib.rs:735-790 | Every atomic step of every interleaving keeps the system invariant |
| CompilerSteps.RunKeepsInv | native/src/lib.rs:735-790 | So does every run |
| CompilerSteps.RolesAreSerial | native/src/lib.rs:2326-2348 | Retained role maps are serialisable: in every reachable state they are the fold, in commit order, of exactly the compilers that moved RUNNING to FINISHED with roles to keep; each of them read the fold of its predecessors, and no update is lost |
| CompilerSteps.WhoCommits | native/src/lib.rs:2308-2348 | Exactly the finished calls that retain role maps and are not restricted to the asserted taxonomy are in the order of commits |
| CompilerSteps.OthersLeaveRoles | native/src/lib.rs:2308-2348 | No step of any other call changes the role maps or that order |
| CompilerSteps.WritersUpdateRoles | native/src/lib.rs:2326-2348 | The one step that changes the role maps writes what its call makes of the maps as they are |
| CompilerSteps.CancelIsFinal | native/src/lib.rs:2801-2822 | If cancel() returned true that compiler never commits roles and never delivers a batch, in any continuation |
| CompilerSteps.QuietWorldIsFree | native/src/lib.rs:395-415 | When no call is in flight the claim and the role lock are free and the maps hold every commit |
| CompilerSteps.DeliveredIsPrefix | native/src/lib.rs:2547-2713 | In every interleaving the concatenation of the delivered batches is a prefix of the edges the call computed, in full batches, and at exhaustion it is all of them with exact counters |
| CompilerSteps.OneDrainAtATime | native/src/lib.rs:2575-2605 | A drain starts only when no other is in flight, and at the position the last delivery reached |
| CompilerSteps.FailedDrainCanBeRetried | native/src/lib.rs:2617-2694 | A failed drain delivers nothing, and it can be retried from the same position exactly when the output was not closed |
| CompilerSteps.ClosedDeliversNothing | native/src/lib.rs:1098-1107 | After the output was closed nothing is ever delivered and no drain starts |
| CompilerSteps.DroppedDrainIsStuck | native/src/lib.rs:2594-2608 | The one failure that cannot be retried: an early return between taking the stream and the guarded preparation leaves the output active and silent for good |
| CompilerSteps.DroppedDrainHappens | native/src/lib.rs:2594-2608 | A reachable state in which a drain has lost its stream while the output is active |
| CompilerSteps.OpenCanBeDrained | native/src/lib.rs:2547-2713 | From every reachable state with an open output some continuation delivers all its edges, if and only if the stream was not lost |
| CompilerSteps.ReturnedIsSettled | native/src/lib.rs:924-925 | A compiler whose call has ended is still running if and only if the call broke off between begin and the guarded body and no cancel succeeded on it |
| CompilerSteps.EarlyReturnHappens | native/src/lib.rs:924-925 | A reachable state with such a compiler |
| CompilerSteps.CallsAdvance | native/src/lib.rs:735-790 | Every step of a call brings it strictly closer to its end, and no other step moves it |
| CompilerSteps.NoDeadlock | native/src/lib.rs:2513-2541 | While any call is in flight some call can take its next step: the two locks never deadlock |
| ColumnValidator.ReadUint | src/pyowl2vec_star_projector/encoded.py:3558-3563 | Reading returns the little-endian value of the row |
| ColumnValidator.CheckLeaf | src/pyowl2vec_star_projector/encoded.py:3220-3250 | A component is accepted exactly when it denotes a leaf at the running scalar cursor, and the cursor moves behind its bytes |
| ColumnValidator.CheckOffsets | src/pyowl2vec_star_projector/encoded.py:3148-3161 | Offsets are accepted exactly when they start at zero, never decrease and end at the number of fields |
| ColumnValidator.CheckItems | src/pyowl2vec_star_projector/encoded.py:3186-3204 | The items of a collection are accepted exactly when they parse in order, node references only for sets |
| ColumnValidator.CheckFields | src/pyowl2vec_star_projector/encoded.py:3173-3216 | The fields are accepted exactly when they parse and both cursors end at the ends of their arenas |
| ColumnValidator.ValidateColumnReferences | src/pyowl2vec_star_projector/encoded.py:3106-3217 | The scan accepts exactly the columns that parse as a table and returns its number of roots |
| ColumnValidator.ValidateBuffers | src/pyowl2vec_star_projector/encoded.py:3036-3054 | Eleven byte buffers are accepted if and only if they store some well-formed table, and the result is that table’s number of roots |
| LayoutRoundTrip.ParseIsLayout | src/pyowl2vec_star_projector/encoded.py:3173-3216 | What parses is the layout of a well-formed table: decoding then encoding restores the columns |
| LayoutRoundTrip.LayoutParses | src/pyowl2vec_star_projector/encoded.py:3173-3216 | Encoding then decoding restores the table |
| LayoutRoundTrip.AcceptedIffLayout | src/pyowl2vec_star_projector/encoded.py:3106-3217 | Columns are accepted if and only if they are the layout of a well-formed table, and of only one |
| ByteColumns.UintOfBytes | src/pyowl2vec_star_projector/encoded.py:3558-3563 | Writing then reading a value of the column’s width restores it |
| ByteColumns.BytesOfUint | src/pyowl2vec_star_projector/encoded.py:3558-3563 | Reading then writing restores the bytes |
| ByteColumns.AcceptedIffStored | src/pyowl2vec_star_projector/encoded.py:3106-3217 | The round trip down to bytes: whole buffers parse exactly when they store a table, and then the parsed one only |
| RootSearch.PushReferred | src/pyowl2vec_star_projector/encoded.py:1605-1621 | Scanning the rows of one node pushes exactly the nodes it refers to |
| RootSearch.RootReachesNode | src/pyowl2vec_star_projector/encoded.py:1589-1622 | The search answers true if and only if both identifiers are in the table and a walk of references leads from one to the other; it terminates on cyclic tables |
| ColumnLaws.AcceptedIffFit | src/pyowl2vec_star_projector/encoded.py:3106-3217 | Which columns are accepted, in plain numbers: kinds 0 to 7, node identifiers in range, scalars and items that tile their arenas in order, set items that are nodes, offsets and roots in range |
| ColumnLaws.RowsSay | src/pyowl2vec_star_projector/encoded.py:3173-3216 | What the rows of an accepted table say: kind, value, length, bytes and items of every component |
| ColumnLaws.RefersIffRowsName | src/pyowl2vec_star_projector/encoded.py:1605-1621 | A node refers to another exactly when a row of kind 1 in its range, or an item of kind 1 in one of its collections, holds the other’s identifier |
| ColumnLaws.LittleEndian | src/pyowl2vec_star_projector/encoded.py:3558-3563 | The first byte is the lowest |
| EdgeEngines.EdgeEngine.Push | native/src/lib.rs:177-224 | A batch is accepted whole or, over the limit or when not active, changes nothing; encounter order emits its kept edges at once |
| EdgeEngines.EdgeEngine.Finish | native/src/lib.rs:226-235 | Finishing sorts what is held without changing what was accepted or handed out |
| EdgeEngines.EdgeEngine.Drain | native/src/lib.rs:237-257 | A drain hands out the next min(k, remaining) edges |
| EdgeEngines.EdgeEngine.Stats | native/src/lib.rs:339-346 | The counters of the input, and raw edges are distinct plus duplicate edges exactly until a cancel forgets the distinct ones |
| EdgeEngines.CancelForgetsEdges | native/src/lib.rs:259-263 | A cancelled engine that accepted one edge reports one raw edge and no distinct or duplicate one |
| EdgeEngines.EdgeEngine.EmptiedIsPolicy | native/src/lib.rs:177-257 | For every split of the input into batches and every drain size an emptied engine has applied the policy to the whole input |
| EdgeEngines.IterProjectedEdges | src/pyowl2vec_star_projector/compiler.py:868-893 | The Python loop applies the same policy with the same counts |
| EdgePolicies.EdgeOrder | src/pyowl2vec_star_projector/model.py:25-31 | Byte order of UTF-8 keys is a total order on edges |
| EdgePolicies.DistinctIsOnce | src/pyowl2vec_star_projector/compiler.py:876-878 | Keeping first occurrences keeps every edge exactly once |
| EdgePolicies.DistinctKeepsFirst | src/pyowl2vec_star_projector/compiler.py:876-878 | Kept edges come in the order of their first occurrences |
| EdgePolicies.TextLeqIsByteOrder | src/pyowl2vec_star_projector/model.py:25-31 | A text comes first if it is a prefix of the other or has the smaller byte where they first differ |
| EdgePolicies.EdgeLeqIsByteOrder | src/pyowl2vec_star_projector/model.py:25-31 | Of two edges the first of source, relation and destination in which they differ decides, byte by byte |
| EdgePolicies.CanonicalIsInByteOrder | src/pyowl2vec_star_projector/compiler.py:868-893 | Canonical output is what was kept, in that order |
| EdgeEngines.EdgeEngine.OutputIsInByteOrder | native/src/lib.rs:226-257 | At any time the edges handed out in canonical order are in that order |
| Sorting.AscendingIsUnique | native/src/lib.rs:226-235 | Two ascending arrangements of the same items are equal, so an unstable sort and a stable one agree |
| ScalaSessions.Projector.Prepare | src/pyowl2vec_star_projector/api.py:543-664 | One call of the lifecycle: its answer and all retained fields, native or scalar, failed or busy |
| ScalaSessions.SessionIsLedger | src/pyowl2vec_star_projector/api.py:593-654 | Over every history the shadow is the fold of the confirmed updates and, until a scalar call, the native copy is that fold with the pending native commits on top |
| ScalaSessions.InvocationsAreRuns | src/pyowl2vec_star_projector/api.py:652-664 | The invocation counter is the number of calls that ran, and the lock is free between calls |
| ScalaSessions.GuardNeverFires | src/pyowl2vec_star_projector/api.py:594-597 | The test for an unshadowed scalar history never decides anything: the flag is always set before |
| ScalaSessions.DisabledStays | src/pyowl2vec_star_projector/api.py:642-643 | The disabling flag never resets |
| ScalaSessions.NativeRunsComeFirst | src/pyowl2vec_star_projector/api.py:598-643 | No call is compiled natively after one that was not |
| ScalaSessions.CallsContinue | src/pyowl2vec_star_projector/api.py:573-651 | Where every call starts, and exactly when that is the updates of the calls that ran before it: for a native run if and only if no native preparation raised after its commit before, for a scalar run if and only if no native run took over such a commit |
| ScalaSessions.ShadowMeetsNative | src/pyowl2vec_star_projector/api.py:644-651 | While native compilation is possible, shadow and native copy hold the same updates if and only if every preparation that raised after its commit was followed by a native call that ran |
| ScalaSessions.WhereCallsStart | src/pyowl2vec_star_projector/api.py:573-651 | A native run starts from the confirmed and the pending commits, a scalar run from the confirmed ones |
| ScalaSessions.LateRaiseShows | src/pyowl2vec_star_projector/native.py:1434-1449 | A concrete history: a cancellation observed after the native commit makes the next native call see an update of no completed call |
| Axioms.HashOrderIsCanonical | src/pyowl2vec_star_projector/compiler.py:220-232 | The emulated hash-set order, and so the role maps, do not depend on the order in which axioms are met |
| Compilations.Compilation.ApplyRoles | src/pyowl2vec_star_projector/compiler.py:844-865 | Role maps become the fold of the role axioms in hash order, with unnamed ones counted |
| RoleLaws.SubrolesAfter | src/pyowl2vec_star_projector/compiler.py:852-857 | What is recorded for a property is the sub-property of the last axiom in hash order that named the property, followed by what was recorded for that sub-property just before; other properties keep what they had |
| RoleLaws.RecordedIsLineage | src/pyowl2vec_star_projector/compiler.py:852-857 | The same without any maps in between: a chain of last axioms, each before the previous one |
| RoleLaws.InversesAfter | src/pyowl2vec_star_projector/compiler.py:858-865 | The inverse of a property is its partner in the last axiom that named it, whichever way round |
| RoleLaws.NamelessAreCounted | src/pyowl2vec_star_projector/compiler.py:844-865 | Role axioms with a property that has no name are counted |
| RoleLaws.TwoChildrenKeepOne | src/pyowl2vec_star_projector/compiler.py:856-857 | Of two sub-properties of one property only the one whose axiom comes last is recorded, and restrictions get one edge for it |
| RoleLaws.CapacityIsLeast | src/pyowl2vec_star_projector/compiler.py:220-225 | The emulated table has the least size, doubled from 16, that is not filled beyond three quarters |
| RoleLaws.HashOrderIsByBucket | src/pyowl2vec_star_projector/compiler.py:226-232 | Axioms come by bucket, then by spread hash, then by the bytes of their encodings |
| Compilations.Compilation.EnsureRoles | src/pyowl2vec_star_projector/compiler.py:598-607 | The role maps are updated at most once and are final when first read |
| Compilations.Compilation.PrepareRoleState | src/pyowl2vec_star_projector/compiler.py:609-611 | Preparing the role maps ahead of iteration, as stateful calls do, gives the final maps |
| Compilations.Compilation.ScanClosureMetadata | src/pyowl2vec_star_projector/compiler.py:613-647 | Skipped axioms are reported and anonymous individuals named at most once |
| Compilations.Compilation.SubclassEdges | src/pyowl2vec_star_projector/compiler.py:441-464 | A subclass axiom yields its edges under the final role maps, whenever it is reached |
| Compilations.Compilation.EquivalentEdges | src/pyowl2vec_star_projector/compiler.py:493-523 | So does an equivalence |
| Compilations.Compilation.GroupClasses | src/pyowl2vec_star_projector/compiler.py:572-591 | Domains or ranges are grouped by property in the order met, and the others reported |
| Compilations.Compilation.DomainRangeEdges | src/pyowl2vec_star_projector/compiler.py:569-596 | The nested loops yield, for every property with both, every pair of domain and range under the final role maps |
| Compilations.Compilation.IterRawEdges | src/pyowl2vec_star_projector/compiler.py:334-439 | A consumption to the end yields the specified edges and reports, also after the role maps were prepared early; it raises exactly when an inverse assertion is present |
| EdgeLaws.RunYieldsWhatAxiomsMean | src/pyowl2vec_star_projector/compiler.py:334-439 | An edge is yielded if and only if a visited axiom means it, or, unless an inverse assertion stopped the run, a domain and a range of one property give it |
| EdgeLaws.AxiomMembers | src/pyowl2vec_star_projector/compiler.py:441-561 | What an axiom means as edges: directions, relation names, sub-properties, inverses and names of individuals, as a relation between axioms and edges |
| EdgeLaws.RoleEdgesInOrder | src/pyowl2vec_star_projector/compiler.py:485-491 | A relation comes first, then its recorded sub-properties in order, then its inverse |
| EdgeLaws.WholeIsVisits | src/pyowl2vec_star_projector/compiler.py:334-439 | The edges are those of the visited axioms one after the other, and then those of domains and ranges |
| EdgeLaws.VisitsAreOrdered | src/pyowl2vec_star_projector/compiler.py:334-439 | Axioms are visited by category, and within a category by the bytes of their encodings |
| EdgeLaws.VisitsAreVisited | src/pyowl2vec_star_projector/compiler.py:334-439 | Which axioms are visited, each as often as the view yields it: annotations on request only, object assertions up to the first inverse one only |
| EdgeLaws.DomainRangeInOrder | src/pyowl2vec_star_projector/compiler.py:569-596 | Domains and ranges yield exactly the edges they mean, property after property in byte order |
| EdgeLaws.ReportedIffSilent | src/pyowl2vec_star_projector/compiler.py:441-561 | An axiom is reported exactly when it yields nothing, and malformed literals are reported |
| EdgeLaws.JunctionReports | src/pyowl2vec_star_projector/compiler.py:508-520 | Of an equivalence to a junction every operand that yields nothing is reported, unless only the taxonomy is asked for |
| EdgeLaws.UnpairedCopies | src/pyowl2vec_star_projector/compiler.py:572-591 | Domains and ranges without a named property and class are reported |
| EdgeLaws.SkippedCopies | src/pyowl2vec_star_projector/compiler.py:613-639 | Axioms of no category are reported, each copy once |
| EdgeLaws.RunEnvironment | src/pyowl2vec_star_projector/compiler.py:598-647 | The role axioms and the anonymous individuals of a run are those of the closure |
| EdgeLaws.RunIgnoresNameless | src/pyowl2vec_star_projector/compiler.py:844-865 | A run ignores exactly the role axioms of its closure with a property that has no name |
| Compilations.CanonicalIsInOrder | src/pyowl2vec_star_projector/compiler.py:793-806 | A category that the view yields in canonical order is the eagerly sorted one |
| Compilations.RolesFromCategories | src/pyowl2vec_star_projector/compiler.py:601-606 | Collecting role axioms in one pass or in two categories gives the same hash order |
| Compilations.WhoReadsRoles | src/pyowl2vec_star_projector/compiler.py:466-483 | Before domains and ranges only subclass and equivalence axioms with a projecting restriction read the role maps |
| EdgeLaws.ReadsRolesIffRestricted | src/pyowl2vec_star_projector/compiler.py:466-483 | An axiom makes the role maps needed exactly when it relates a named class to a restriction of a named property |
| Compilations.WhoReadsNames | src/pyowl2vec_star_projector/compiler.py:563-568 | Before the final scan only annotations and object assertions ask for the names of anonymous individuals |
| EdgeLaws.ReadsNamesIffBlank | src/pyowl2vec_star_projector/compiler.py:563-568 | An axiom makes the names needed exactly when one of its edges has a name of an anonymous individual |
| EdgeLaws.RunReadsNamesIff | src/pyowl2vec_star_projector/compiler.py:378-439 | A run needs names before its end exactly when some visited axiom does |
| Compilations.LazyAndEagerAgree | src/pyowl2vec_star_projector/compiler.py:334-439 | Consumed to the end, a lazy and an eager compilation agree on edges, role maps, names, statistics and diagnostics; stopped by an inverse assertion they agree on the edges, and the lazy one lacks exactly the traces of the updates that nothing had asked for, with the exact condition for role maps and for names |
| Compilations.StoppedRunsDiffer | src/pyowl2vec_star_projector/compiler.py:404-418 | Two compilations of one concrete view, both stopped by an inverse assertion, end with different role maps |

## Left out

- LeafResolver.ResolveLeafPlan: index-size limits inside the validation of one view are not counted, and the containers are a set instead of a tuple in order of retention; on a graph without an unfolding no order among several true refusals is fixed.
- DirectMembers.ResolveDirectMembers: closure scopes and the public types of segment attributes; the guard around reading the roles of the members.
- LeafResolver.Start: frames and the stack are values that the loop replaces, not objects that it mutates, so aliasing of rows between frames is not modelled; Python integers are unbounded as in the model.
- PathEnumerator.EnumerateLeafPaths: `usize` overflow and allocation failures have no counterpart; descriptor, scope and buffer-layout checks of a view are not part of its validity.
- PlanChecker.ValidateLeafPlan: the identity of retained buffers and the binding of postings to exact memory are equality of values here.
- RootPairing.ResolveRootPair: closure scopes and the index-size limits that it passes on; CLOSURE paths are read off the rows instead of a second tuple of the same length; the pairing of ROOT with direct-member composites (`_validate_dynamic_composite_root_pair`).
- CompilerSteps.RolesAreSerial: what a compilation makes of role maps and which edges it computes are arbitrary functions of the maps it read; panics and mutex poisoning do not occur; several compilers share one set of maps, not several sets.
- CompilerSteps.DeliveredIsPrefix: allocating Python objects is one step that succeeds or fails; code that it runs meanwhile is covered by the other steps.
- BatchOutput.DirectBatchOutput.EndDrain: the overflow checks of the call counters.
- ColumnValidator.ValidateColumnReferences: the public resource limits at its start.
- ColumnValidator.ReadUint: bytes are added instead of combined by bitwise or, which is the same for disjoint bytes.
- EdgeEngines.EdgeEngine.Push: allocation failures inside the loop.
- ScalaSessions.Projector.Prepare: views, options, negotiation and reports; native and scalar compilation are assumed to make the same of role maps; one scalar preparation succeeds or fails as a whole.
- Compilations.Compilation.IterRawEdges: edges are collected instead of yielded, so only complete consumption is covered; role maps are a field, not an object shared between compilations; hash values, canonical encodings, rendered annotation values and the order of operands inside an expression are given, not computed.
- Manifests.ValidManifest: the loops that validate segments, postings and scope maps of one view (encoded.py:3253-3459) are a predicate on the decoded manifest.
- Anonymous scopes, owners and member tokens are numbers; a leaf table is a list of node scopes and of roots made of nodes, not the columns of the column model.
- The fixed two-, three- and four-member resolvers and their native manifest checks: special cases of the recursive plan.
- Rule compilation, literal rendering, JSON artifacts, provenance, external sorting, backend selection, Python object layout and the foreign-function boundary.
