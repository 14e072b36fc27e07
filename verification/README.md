# Infed: verified models

Dafny models of the parts of this PostgreSQL tree in which a rewriting, a lossy index key, an encoding or a
protocol has to agree with something simpler, and proofs that it does, or of exactly when it does.

`dafny verify dfyconfig.toml` checks everything.

## What is modelled

**Certain-answer rewriting** (`Sql`, `Completions`, `Mutator`, `MutatorPlain`, `MutatorLimits`, `TrueVar`, `Walker`,
`ListCells`, `SharedLists`, `WalkerPass`, `SkipLists`, `SkipSound`, `Hook*`). The
post-parse hook walks a query once to collect scopes and not-null lists and a second time to put `IS NULL` tests in
front of comparisons at negative polarity. The lists are linked cells that `list_concat` shares, so that a stored
list grows with what is collected after it. Conditions are a datatype (comparison, `IS NULL`, `AND`, `OR`, `NOT`, and
`EXISTS` over a list of relations) with the three-valued semantics of section 8.12 and the exists predicate of
section 8.8 of ISO/IEC 9075:1992. A completion replaces nulls by values. The main theorem says that the rewritten
query returns a row only if the original returns it under every completion, for every query whose skipped tests are
earned with the lists as they have grown; shapes of queries for which they always are, and five queries for which
they are not, are given.

**Splitting and components** (`SplitOptimize`, `SplitChoices`, `SplitMeaning`, `SplitHook`, `Components`, `ExistOptimize`,
`Renumber`). The worklist that turns `NOT EXISTS (... OR ...)` into a conjunction of OR-free `NOT EXISTS`, the walk
that groups relations into connected components, and the renumbering loop over the components.

**btree_gist** (`ByteOrder`, `BtreeGist`, `BtreeGistOps`). Truncated keys of byte strings, unions and splits of any
history, and searches over them.

**hstore** (`HstoreFormat`, `HstoreText`, `HstoreGrammar`, `HstoreIO`, `HstoreOut`, `HstoreSearch`, `HstoreMaps`,
`HstoreMerge`). The text format with its grammar, parser and printer, the end-offset encoding, the binary search with a cached lower bound, and the merges.

**intarray** (`IntQuery*`, `IntRanges`, `IntExpand`, `IntCover`, `IntGist`, `GistTree`, `IntSign*`). The query
compiler, evaluator and printer, GIN's use of them, the range compressor of `gist__int_ops` and the signature trees
of `gist__intbig_ops`.

**bloom** (`BloomRand`, `BloomSign`, `BloomRows`, `BloomInsert`, `BloomRuns`, `BloomIndex`). The generator,
signatures, and inserts and scans as steps between lock acquisitions, in any interleaving.

Code that updates fields or arrays step by step is modelled by classes, arrays and loops, each proved against a
function or predicate about which the theorems are stated.

## Findings

Where a promised property does not hold of the code, a lemma names an input and another gives the exact condition.

- Integer equality (operator 96) is not among the weakened operators, so answers that depend on it need not be
  certain (`MutatorLimits.Int4EqualityIsNotCertain`, `MutatorLimits.ComparisonSoundExactly`).
- The hook is not certain on all queries in its scope, for four reasons. A to-be-false list passes EXISTS, which is
  sound exactly if it holds no outer column that can be null (`HookLimits.ThroughExistsExactly`,
  `HookLimits.ListThroughExistsIsNotCertain`). A list names columns of relations, which two subqueries may both read
  (`HookTwins.TwinSubqueriesAreNotCertain`). An AND or OR finds its own list exactly if nothing branches into two
  (`HookLookup.LookupIsOwnExactly`, `HookMispaired.MispairedListIsNotCertain`,
  `HookNots.PlainJunctionsAreNotEnough`). And a stored list shares its cells with the list being collected, so it
  grows with what follows before the enclosing AND or OR ends (`HookGrown.GrownListIsNotCertain`); the lists stay
  as they were inferred exactly if nothing follows one that is not empty (`SharedLists.UnsharedExactly`), and their
  growth does not matter if it only happens where all arguments count (`HookSpine.SettledFit`). The hook is certain
  on every query whose skipped tests are earned (`Hook.PostParseAnalyse`), among them all whose grown lists hold
  NOT NULL columns only (`HookShapes.DeclaredListsFit`) and those of `HookShapes.PlainJunctionsFit`.
- A negative comparison whose columns are all skipped leaves the `ready` flag set. This does not hurt certainty, but
  a later test may end up outside its scope (`MutatorLimits.ComparisonCleanExactly`,
  `MutatorLimits.LeakedTestLeavesScope`).
- The split worklist loops for ever exactly if the root of the condition is an OR, which a single weakened
  comparison is (`SplitOptimize.TerminatesExactly`, `SplitHook.WeakenedComparisonNeverSplits`); an OR under an odd
  number of NOTs is split rightly exactly if its pieces agree (`SplitChoices.PiecesUnderNotsExactly`,
  `SplitHook.SplitUnderNotChangesMeaning`).
- A comparison of three columns may leave one list as sub level and component at once, or fail with an error of
  `list_concat` (`Components.StepKeepsExactly`, `Components.ThirdColumnBreaksPartition`,
  `Components.SecondOuterColumnFails`).
- Splitting internal pages of btree_gist can lose strings on the side with the shorter prefix
  (`BtreeGistOps.SideHoldsExactly`, `BtreeGistOps.SplitLosesAString`).
- Links of a boolean query reach 32768 items back, one more than a right operand may have
  (`IntQueryExec.LinksReachExactly`); longer ones are accepted and linked wrongly
  (`IntQueryTrip.LongOperandIsMislinked`).
- "Contained by" searches miss empty arrays (`IntGist.ContainedByExactly`,
  `IntSignTree.ContainedByPassesExactly`).
- The range compressor closes a gap of 2^31 or more first, and such a key cannot be read back
  (`IntCover.SmallestExactly`, `IntCover.TooWideIsUnreadable`); nor can a compressed key that ends with the largest
  integer (`IntExpand.CountingEndsExactly`) or covers more than an array can hold (`IntCover.ReadableExactly`,
  `IntCover.EvenIsRefused`).
- The comment on `mySrand` promises a state in [1, 0x7ffffffe]. Seeds of 2^31 and more are taken as negative numbers
  and lead outside it; the first draw leads back in, except for two seeds that lead to zero for ever
  (`BloomRand.NeverZeroExactly`). The model follows the code.

## Parameters instead of code

What `qsort` leaves is a parameter constrained to be a sorted permutation (in `HstoreIO`, `HstoreSearch`,
`HstoreOut`, `IntGist`, `BtreeGistOps`) or any arrangement of the offsets (in `IntSignPick.GIntBigPickSplit`, whose
theorems hold for all of them). Hash functions, comparison operators and the catalog are function or table
parameters. The schedule of a bloom run is a parameter.

## Model

| member | source | states |
|---|---|---|
| Completions.WeakenedSound | gitrepo/postgresqlgit/src/certain_answer_codd.c:262-440 | A condition weakened at negative polarity by IS NULL disjuncts is safe on a database with nulls: at positive polarity, if the result is True then the original is true under every completion of the nulls; at negative polarity, if the original is true under some completion then the result is True, and if the result is False the original is false; for any nesting of AND, OR, EXISTS and NOT EXISTS |
| Completions.WeakenedConservative | gitrepo/postgresqlgit/src/certain_answer_codd.c:395-439 | Without nulls in the database, and with all added tests in scope, the weakened condition has the value of the original |
| Mutator.MutateCompareWeakens | gitrepo/postgresqlgit/src/certain_answer_codd.c:361-418 | One comparison, with any `ready` flag and any tests still waiting from earlier comparisons, is turned into a weakening of itself, and the context stays sane |
| Mutator.MutateWeakens | gitrepo/postgresqlgit/src/certain_answer_codd.c:262-440 | For every condition tree the mutator returns a weakening of its input in the sense of WeakenedSound, keeps the context sane, and takes exactly one scope chain for each query it enters |
| Mutator.RewrittenQueryIsCertain | gitrepo/postgresqlgit/src/certain_answer_codd.c:262-440 | With skip lists that hold schema NOT NULL columns only: if the rewritten query returns a row on a database with nulls, the original query returns that row under every completion of the nulls |
| Mutator.MutateCounts | gitrepo/postgresqlgit/src/certain_answer_codd.c:276-293 | The mutator looks up exactly one not-null list for each AND and OR of its input |
| Mutator.ContextModifier.MutateTerms | gitrepo/postgresqlgit/src/certain_answer_codd.c:419-438 | The in-place context collects one IS NULL test for each column argument that is not in the current not-null list, and none when the flag is off |
| Mutator.ContextModifier.MutateOperator | gitrepo/postgresqlgit/src/certain_answer_codd.c:361-418 | The operator case, run on mutable fields, returns the node and leaves the context of the specification: listed operators 518, 416, 98, 521, 525, 523, 97, 1209 at negative polarity only |
| Mutator.ContextModifier.MutateJunction | gitrepo/postgresqlgit/src/certain_answer_codd.c:276-293 | AND and OR extend the not-null list for their arguments and restore it afterwards |
| Mutator.ContextModifier.MutateNode | gitrepo/postgresqlgit/src/certain_answer_codd.c:262-440 | The recursive walk with saved, overwritten and restored fields (polarity, scope, not-null list, counters) computes the function that the theorems are about |
| MutatorPlain.MutateIsPlain | gitrepo/postgresqlgit/src/certain_answer_codd.c:262-440 | The walk with its flag, waiting tests and counters computes the plain rewriting: a listed comparison at negative polarity gets one test in front for each column not skipped, an AND or OR adds its list for the polarity to what is skipped inside, nothing else changes; whenever every such comparison has a column to test, so that no flag is left set |
| MutatorLimits.ComparisonSoundExactly | gitrepo/postgresqlgit/src/certain_answer_codd.c:364-394 | Whatever lists the context skips, a comparison at negative polarity is handled safely if and only if every one of its columns that can be null is tested: its operator is in the list of the code and the column is not skipped |
| MutatorLimits.NegatedComparisonSoundExactly | gitrepo/postgresqlgit/src/certain_answer_codd.c:267-275 | NOT of a comparison at negative polarity is handled safely if and only if none of its columns can be null |
| MutatorLimits.NullTestSoundExactly | gitrepo/postgresqlgit/src/certain_answer_codd.c:439 | An IS NULL test in the input is certain at positive polarity if and only if its column cannot be null |
| MutatorLimits.Int4EqualityIsNotCertain | gitrepo/postgresqlgit/src/certain_answer_codd.c:407-413 | A concrete query with integer equality (operator 96, whose case is commented out) under NOT EXISTS whose rewriting returns a row that one completion takes away |
| MutatorLimits.ComparisonCleanExactly | gitrepo/postgresqlgit/src/certain_answer_codd.c:397-405 | From a clean context, a comparison leaves the `ready` flag set if and only if it is negative, listed and all its columns are skipped |
| MutatorLimits.MutateStaysClean | gitrepo/postgresqlgit/src/certain_answer_codd.c:361-438 | If no such comparison occurs, no test outlives its comparison and the result only refers to columns in scope |
| MutatorLimits.RewrittenQueryIsConservative | gitrepo/postgresqlgit/src/certain_answer_codd.c:262-440 | Then, on a database without nulls, the rewritten query returns exactly the rows of the original |
| MutatorLimits.LeakedTestLeavesScope | gitrepo/postgresqlgit/src/certain_answer_codd.c:398-439 | A concrete condition whose leaked flag puts an IS NULL test where its column does not exist |
| TrueVar.GetTrueVar | gitrepo/postgresqlgit/src/true_var.c:138-146 | Walking outwards one list per level and then by relation and column gives the attribute a column stands for |
| TrueVar.IsInListTrueVar | gitrepo/postgresqlgit/src/true_var.c:148-161 | Membership by column number and relation |
| TrueVar.UnionList | gitrepo/postgresqlgit/src/true_var.c:163-174 | The order-preserving removal of duplicates |
| TrueVar.DedupMeans | gitrepo/postgresqlgit/src/true_var.c:163-174 | Removing duplicates keeps exactly the members and leaves no duplicate |
| TrueVar.DedupInOrder | gitrepo/postgresqlgit/src/true_var.c:163-174 | The union keeps the order in which the entries occur first |
| TrueVar.InterList | gitrepo/postgresqlgit/src/true_var.c:176-195 | The nested counting loops keep, once each, the entries that occur nb_arg times |
| TrueVar.OccurringMeans | gitrepo/postgresqlgit/src/true_var.c:176-195 | The kept entries are duplicate-free and are exactly those that occur that often |
| TrueVar.OccurringInOrder | gitrepo/postgresqlgit/src/true_var.c:176-195 | So does the intersection |
| TrueVar.CountBound | gitrepo/postgresqlgit/src/true_var.c:183-191 | In a concatenation of duplicate-free lists an entry occurs at most once per list, and as often as there are lists if and only if it is in all of them |
| TrueVar.InterIsIntersection | gitrepo/postgresqlgit/src/true_var.c:176-195 | Counting against nb_arg is set intersection when every argument contributes a duplicate-free list |
| Walker.NeededDistinct | gitrepo/postgresqlgit/src/certain_answer_codd.c:87-199 | Every list that the first pass builds for a node is duplicate-free, which is what the counting needs |
| Walker.NeededExactly | gitrepo/postgresqlgit/src/certain_answer_codd.c:87-223 | What is on an inferred list, for every condition: a column of a comparison to be true; at an AND to be true or an OR to be false what some argument demands, at an AND to be false or an OR to be true what every argument demands; NOT turns the demand round, EXISTS passes it on |
| Walker.NeededSound | gitrepo/postgresqlgit/src/certain_answer_codd.c:87-199 | Not-null inference: if a condition is True (or False), every attribute of its to-be-true (or to-be-false) list has a value in some relation of the scope; for every AND/OR/NOT tree of strict comparisons, without EXISTS |
| Walker.NeededSoundOnce | gitrepo/postgresqlgit/src/certain_answer_codd.c:87-199 | With each relation in scope once, the very column the attribute stands for is not null; conditions without EXISTS |
| SkipLists.NeededValued | gitrepo/postgresqlgit/src/certain_answer_codd.c:87-223 | Not-null inference through subqueries: if a rewritten condition is True (or, at negative polarity, False), every column on the to-be-true (to-be-false) list of the original has a value, provided no to-be-false list carries an outer column that can be null through an EXISTS |
| SkipLists.InferenceSound | gitrepo/postgresqlgit/src/certain_answer_codd.c:87-223 | The same of the condition itself: AND, OR, NOT and EXISTS nested in any way |
| HookLimits.ThroughExistsExactly | gitrepo/postgresqlgit/src/certain_answer_codd.c:99-120 | Where an EXISTS is false, the columns of the to-be-false list have values on every database and row, if and only if the list holds no column of an enclosing query that can be null |
| SkipSound.BackedSound | gitrepo/postgresqlgit/src/certain_answer_codd.c:262-440 | A condition with a test for every column of a negative comparison that is not known to have a value there is safe at both polarities; what is known is what enclosing ANDs, ORs and subqueries that have to be true need |
| SkipSound.MutateBacked | gitrepo/postgresqlgit/src/certain_answer_codd.c:262-440 | For every condition and every not-null lists, the mutator returns such a condition if the tests it skips are earned: the skipped column is NOT NULL or known to have a value |
| SkipSound.EarnedQueryIsCertain | gitrepo/postgresqlgit/src/certain_answer_codd.c:262-440 | The purpose of the hook, for any lists: if the skipped tests are earned, a row of the rewritten query on a database with nulls is a row of the original under every completion |
| ListCells.LinkReads | gitrepo/postgresqlgit/src/backend/nodes/list.c:321-339 | list_concat in place: every list that ended at the last cell of the first list goes on with the second, and no other list changes |
| ListCells.JoinGrows | gitrepo/postgresqlgit/src/certain_answer_codd.c:110-113 | Appending what a part of the condition collected to the two saved accumulators: both get exactly that, every older list that ends with one of them grows with it, and all others stay |
| ListCells.GrewTwice | gitrepo/postgresqlgit/src/certain_answer_codd.c:187-197 | Growth adds up: after two walks every older list has grown by what both appended, in order |
| SharedLists.SharedCount | gitrepo/postgresqlgit/src/certain_answer_codd.c:135-140 | The first pass stores exactly one pair of lists for each AND and OR, as many as the second pass takes |
| SharedLists.SharedByFate | gitrepo/postgresqlgit/src/certain_answer_codd.c:135-169 | Appending after a part is complete lengthens exactly the lists that are still open there: that of an outermost AND or OR that is not empty, on the side that NOT gave it |
| SharedLists.SharedExactly | gitrepo/postgresqlgit/src/certain_answer_codd.c:135-169 | What is on the stored list of the k-th AND or OR: what the node demands, and, if it demands anything, what is demanded after it before its enclosing AND or OR ends |
| SharedLists.UnsharedExactly | gitrepo/postgresqlgit/src/certain_answer_codd.c:135-169 | The second pass finds exactly the inferred lists, if and only if no AND or OR with a non-empty list is followed, before its enclosing AND or OR ends, by anything that adds to the same accumulator |
| WalkerPass.ContextWalker.WalkRelation | gitrepo/postgresqlgit/src/certain_answer_codd.c:224-248 | A base relation adds its columns to the scope and exactly its NOT NULL columns to the schema list |
| WalkerPass.ContextWalker.WalkRangeTable | gitrepo/postgresqlgit/src/certain_answer_codd.c:204-213 | The scope has the columns of each relation in order, and the schema list gains exactly their NOT NULL columns |
| WalkerPass.ContextWalker.WalkOperator | gitrepo/postgresqlgit/src/certain_answer_codd.c:182-199 | A comparison appends its columns, once each, to the to-be-true list, in place: every stored list that ends there grows too |
| WalkerPass.ContextWalker.ListConcat | gitrepo/postgresqlgit/src/backend/nodes/list.c:321-339 | The one cell at the end of the first list is changed; an empty argument gives back the other list itself |
| WalkerPass.ContextWalker.NewList | gitrepo/postgresqlgit/src/certain_answer_codd.c:135-136 | A list built cell by cell holds exactly the given columns in new cells |
| WalkerPass.ContextWalker.WalkNot | gitrepo/postgresqlgit/src/certain_answer_codd.c:96-117 | NOT saves the lists, walks its argument and appends what it collected to the saved lists crosswise |
| WalkerPass.ContextWalker.WalkJunction | gitrepo/postgresqlgit/src/certain_answer_codd.c:120-177 | AND and OR save the lists, combine those of the arguments by union and intersection, store them, and append the very same cells to the saved lists, so that a stored list goes on growing; what is stored and what is appended is exactly what the node demands, for both truth values |
| WalkerPass.ContextWalker.Walk | gitrepo/postgresqlgit/src/certain_answer_codd.c:81-258 | The recursive walk over fields and shared cells appends exactly the inferred lists and the scope chains; the stored lists read as the shared lists of the specification, and which of them are still open is known |
| WalkerPass.ContextWalker.WalkQuery | gitrepo/postgresqlgit/src/certain_answer_codd.c:201-223 | A query opens a scope, records it before its subqueries and closes it again; the schema list gains exactly the NOT NULL columns of all relations read in it |
| WalkerPass.ContextWalker.Stored | gitrepo/postgresqlgit/src/true_var.c:145-157 | Reading a stored list follows the cells, including those linked behind it after it was stored |
| Hook.RunFirstPass | gitrepo/postgresqlgit/src/certain_answer_codd.c:453-454 | The first pass leaves, for the second, the lists with all that was appended to them, each with exactly the columns that its node or what follows demands, the scope chains, and a schema list of exactly the NOT NULL columns of the relations read |
| Hook.FirstPassExactly | gitrepo/postgresqlgit/src/certain_answer_codd.c:453-454 | The same of the specification, node by node |
| Hook.PostParseAnalyse | gitrepo/postgresqlgit/src/certain_answer_codd.c:444-465 | The two passes together: the second runs on the shared lists that the first leaves, and the result returns certain answers only for every query that is fit, that is whose skipped tests are earned with these lists; where no flag is left set the result is the plain rewriting |
| Hook.FitIsCertain | gitrepo/postgresqlgit/src/certain_answer_codd.c:444-465 | On a fit query the rewriting by the first pass's own lists, grown as they are, and the schema list is certain on every database, operator semantics and completion |
| HookShapes.DeclaredListsFit | gitrepo/postgresqlgit/src/certain_answer_codd.c:444-465 | A query whose stored lists, with all that was appended to them, hold NOT NULL columns only is fit |
| HookShapes.PlainJunctionsFit | gitrepo/postgresqlgit/src/certain_answer_codd.c:444-465 | A query whose ANDs and ORs hold no subquery is fit, whatever its columns, if no AND or OR has two arguments with further ANDs and ORs inside, or none stands under a NOT inside another |
| HookLookup.LookupIsOwnExactly | gitrepo/postgresqlgit/src/certain_answer_codd.c:276-293 | The walk in pre-order with lists taken from the end of a post-order list finds at every AND and OR the list of that node, if and only if no AND or OR has two arguments with further ANDs and ORs inside |
| HookSpine.SpineFit | gitrepo/postgresqlgit/src/certain_answer_codd.c:276-293 | On such queries fitness depends on the query alone: it holds if and only if every test skipped because of an enclosing node's own stored list, with what was appended to it, is earned |
| HookSpine.SettledFit | gitrepo/postgresqlgit/src/certain_answer_codd.c:135-169 | If moreover, in every OR that has to be true and every AND that has to be false, no argument with an AND or OR inside is followed by one that needs a column, what was appended does not matter: fitness holds if and only if the tests skipped because of the inferred lists are earned |
| HookLimits.ListThroughExistsIsNotCertain | gitrepo/postgresqlgit/src/certain_answer_codd.c:99-140 | A concrete query with one AND on which the hook is not certain: the list of the AND took an outer column through NOT EXISTS |
| HookTwins.TwinSubqueriesAreNotCertain | gitrepo/postgresqlgit/src/certain_answer_codd.c:276-293 | A concrete query whose lists are all sound and found where they belong, and which is not certain: two subqueries read the same relation, and a list names the relation's column |
| HookMispaired.MispairedListIsNotCertain | gitrepo/postgresqlgit/src/certain_answer_codd.c:276-293 | A concrete query on which an AND takes the list of another AND, and which is not certain although with its own stored lists every skipped test would be earned |
| HookGrown.GrownListIsNotCertain | gitrepo/postgresqlgit/src/certain_answer_codd.c:135-140 | A concrete query on which every AND and OR finds its own list and every test skipped because of an inferred list is earned, and which is not certain, whatever schema list is used: the second side of an OR lengthens the list of the AND before it |
| HookNots.PlainJunctionsAreNotEnough | gitrepo/postgresqlgit/src/certain_answer_codd.c:276-293 | A concrete query whose ANDs and ORs hold no subquery, and which is not certain: under a NOT one OR takes the list of another |
| SplitOptimize.ContextSplit.Visit | gitrepo/postgresqlgit/src/split_optimize.c:31-55 | The traversal with a mutable choice counter and stop flag computes the specification |
| SplitOptimize.SplitPicks | gitrepo/postgresqlgit/src/split_optimize.c:31-55 | One traversal replaces the first OR in traversal order by the chosen argument and nothing else, and says whether another copy is needed |
| SplitOptimize.SplitRootPicks | gitrepo/postgresqlgit/src/split_optimize.c:85-89 | The same for the call on the children of the root |
| SplitOptimize.ChoicesCount | gitrepo/postgresqlgit/src/split_optimize.c:70-92 | The number of pieces is the sum over OR and the product over AND |
| SplitOptimize.ChoicesOrFree | gitrepo/postgresqlgit/src/split_optimize.c:57-67 | A condition without OR is its own only piece |
| SplitOptimize.ChoicesSplit | gitrepo/postgresqlgit/src/split_optimize.c:83-89 | The pieces of a condition are, in order, the pieces of its copies for each argument of the first OR |
| SplitOptimize.PickShrinks | gitrepo/postgresqlgit/src/split_optimize.c:83-89 | Each copy has fewer ORs |
| SplitOptimize.Finishes | gitrepo/postgresqlgit/src/split_optimize.c:70-92 | From every state that satisfies the invariant the worklist halts, and the pieces still to come plus those found stay the same multiset |
| SplitOptimize.StuckForever | gitrepo/postgresqlgit/src/split_optimize.c:84-89 | With an OR at the root the inner loop never leaves its state |
| SplitOptimize.TerminatesExactly | gitrepo/postgresqlgit/src/split_optimize.c:70-92 | The worklist ends if and only if the root is not an OR |
| SplitOptimize.Duplicate | gitrepo/postgresqlgit/src/split_optimize.c:83-89 | The do-while loop appends one copy per argument: the pile gains exactly the pieces of the condition taken from it |
| SplitOptimize.TrueSplit | gitrepo/postgresqlgit/src/split_optimize.c:70-92 | The worklist returns exactly the pieces of the condition, as a multiset, none of which contains an OR |
| SplitChoices.ChoicesMean | gitrepo/postgresqlgit/src/split_optimize.c:70-92 | A condition is the three-valued OR of its pieces if its ORs stand under an even number of NOTs, and their AND if they stand under an odd number |
| SplitChoices.ChoicesBound | gitrepo/postgresqlgit/src/split_optimize.c:70-92 | Every condition lies between the AND and the OR of its pieces |
| SplitChoices.PiecesUnderNotsExactly | gitrepo/postgresqlgit/src/split_optimize.c:31-92 | Behind k NOTs the OR of the pieces is the condition if and only if k is even or all pieces have one value |
| SplitChoices.SplitUnderNotExactly | gitrepo/postgresqlgit/src/split_optimize.c:31-92 | NOT over an OR of any number of OR-free arguments is split rightly on all data if and only if its arguments always agree |
| SplitMeaning.PiecesMean | gitrepo/postgresqlgit/src/split_optimize.c:70-92 | The three-valued OR of the pieces, in any order, is the condition |
| SplitMeaning.OptimizeSplit | gitrepo/postgresqlgit/src/split_optimize.c:116-133 | The result is the conjunction of one NOT EXISTS per piece, or the only one, and has the value of NOT EXISTS over the condition if its ORs stand under an even number of NOTs |
| SplitMeaning.RejoinNeverAdds | gitrepo/postgresqlgit/src/split_optimize.c:116-133 | Whatever the condition, that conjunction is never true where NOT EXISTS over the condition is not |
| SplitMeaning.RejoinMeans | gitrepo/postgresqlgit/src/split_optimize.c:116-133 | That conjunction has the value of NOT EXISTS over the original condition |
| SplitMeaning.MutatorSplitDeep | gitrepo/postgresqlgit/src/split_optimize.c:94-109 | The deep traversal splits every NOT EXISTS after splitting inside it |
| SplitMeaning.DeepSplitMeans | gitrepo/postgresqlgit/src/split_optimize.c:94-113 | Splitting at all depths changes no truth value, if in every subquery split the ORs stand under an even number of NOTs |
| SplitMeaning.DeepSplitDone | gitrepo/postgresqlgit/src/split_optimize.c:94-113 | Afterwards every NOT EXISTS reached has an OR-free condition, if no OR stood under a NOT |
| SplitHook.SplitQueryIsCertain | gitrepo/postgresqlgit/src/split_optimize.c:94-133 | Rewriting a fit query by the hook and splitting the result still returns certain answers only; the self-constraint pass that runs between the two (certain_answer_codd.c:478) is skipped |
| SplitHook.WeakenedComparisonNeverSplits | gitrepo/postgresqlgit/src/split_optimize.c:70-92 | A WHERE clause that is one weakened comparison is an OR at its root: splitting it never ends |
| SplitHook.SplitUnderNotChangesMeaning | gitrepo/postgresqlgit/src/split_optimize.c:31-55 | A concrete OR under one NOT whose pieces do not add up to the condition |
| Components.AddEdge | gitrepo/postgresqlgit/src/exist_optimize.c:197-202 | Linking two nodes connects exactly what was connected or reached one of them |
| Components.MergeCloses | gitrepo/postgresqlgit/src/exist_optimize.c:182-202 | Merging the groups of two linked relations gives again the classes of the connection relation |
| Components.StepKeeps | gitrepo/postgresqlgit/src/exist_optimize.c:171-204 | Every visit of a column keeps the partition of relations and sub level into connected groups |
| Components.StepKeepsExactly | gitrepo/postgresqlgit/src/exist_optimize.c:171-204 | A visit succeeds and keeps the lists a partition if and only if the first column of the comparison has not been moved to the sub-level list since it was remembered; otherwise it raises the error of list_concat exactly if the column is at the sub level or belongs to an outer query |
| Components.ApartStays | gitrepo/postgresqlgit/src/exist_optimize.c:171-204 | Every visit, also of such a comparison, keeps lists with a relation in common one and the same list, although list_concat changes lists in place |
| Components.ThirdColumnBreaksPartition | gitrepo/postgresqlgit/src/exist_optimize.c:190-202 | A concrete comparison of three columns after which one list 1, 2 is both the sub level and a component |
| Components.SecondOuterColumnFails | gitrepo/postgresqlgit/src/exist_optimize.c:190-195 | A concrete comparison of a column with two outer columns on which list_concat is asked to append the sub-level list to itself, which is an error |
| ExistOptimize.ComponentsExactly | gitrepo/postgresqlgit/src/exist_optimize.c:57-69 | After the walk the component lists and the sub-level list partition 1..n; two relations share a list if and only if the comparisons connect them, all outer columns being one node; the sub-level list is exactly the group of that node |
| ExistOptimize.WalkKeeps | gitrepo/postgresqlgit/src/exist_optimize.c:162-206 | Each subtree adds exactly its links |
| ExistOptimize.RunsStayApart | gitrepo/postgresqlgit/src/exist_optimize.c:162-206 | So do all runs, over any columns |
| ExistOptimize.ContextExists.IsSub | gitrepo/postgresqlgit/src/exist_optimize.c:71-82 | Membership in the sub-level list |
| ExistOptimize.ContextExists.ReturnComp | gitrepo/postgresqlgit/src/exist_optimize.c:84-108 | The first list with the relation, or the sub-level list |
| ExistOptimize.ContextExists.RemoveFromList | gitrepo/postgresqlgit/src/exist_optimize.c:110-130 | Exactly the lists with the relation go |
| ExistOptimize.ContextExists.ConcatToSub | gitrepo/postgresqlgit/src/exist_optimize.c:182-193 | Appending to the sub-level list in place, with the error for that list itself; a component that is this list grows too |
| ExistOptimize.ContextExists.VisitVar | gitrepo/postgresqlgit/src/exist_optimize.c:171-204 | The in-place case analysis, with its error, is the step of the state machine |
| ExistOptimize.ContextExists.CreateConnexe | gitrepo/postgresqlgit/src/exist_optimize.c:162-206 | The recursive walk is the run of these steps over the columns in order |
| Renumber.Decrease | gitrepo/postgresqlgit/src/exist_optimize.c:147-158 | The counting loop subtracts the number of listed relations below |
| Renumber.DecreaseIsRank | gitrepo/postgresqlgit/src/exist_optimize.c:147-158 | One renumbering takes the rank among the previous survivors to the rank among the new ones |
| Renumber.RankGrows | gitrepo/postgresqlgit/src/exist_optimize.c:418-435 | Ranks preserve the order, strictly on survivors |
| Renumber.RankReached | gitrepo/postgresqlgit/src/exist_optimize.c:418-435 | Every number up to the count of survivors is the rank of a survivor |
| Renumber.RewriteComponents | gitrepo/postgresqlgit/src/exist_optimize.c:418-435 | The loop passes to each rewriting the component numbered by rank among the relations not yet removed, so that the composition of all renumberings is the rank |
| Renumber.CallsFit | gitrepo/postgresqlgit/src/exist_optimize.c:418-435 | Each iteration keeps the remaining lists duplicate-free, pairwise disjoint and within 1..(relations left) |
| Renumber.ComponentsAreSeparate | gitrepo/postgresqlgit/src/exist_optimize.c:418-419 | What the walk leaves meets the precondition of the loop |
| BtreeGistOps.VarNodeCpLen | gitrepo/postgresqlgit/contrib/btree_gist/btree_utils_var.c:120-162 | The loop returns the length of the common prefix of the two bounds |
| BtreeGistOps.VarUnion | gitrepo/postgresqlgit/contrib/btree_gist/btree_utils_var.c:322-358 | The loop over the entries returns the least lower and the greatest upper bound among them, cut two bytes after their common prefix |
| BtreeGist.SpreadExactly | gitrepo/postgresqlgit/contrib/btree_gist/btree_utils_var.c:234-284 | The bounds before the cut are the least lower and the greatest upper bound, each taken from an entry, and no others are |
| BtreeGistOps.Distribute | gitrepo/postgresqlgit/contrib/btree_gist/btree_utils_var.c:511-527 | The sorted entries are distributed half and half, each with the bounds of its side |
| BtreeGistOps.VarPickSplit | gitrepo/postgresqlgit/contrib/btree_gist/btree_utils_var.c:458-547 | Each offset goes to exactly one side, the first half of the sorted entries to the left, and the keys are the least lower and greatest upper bound of each side, both cut two bytes after the longer of the two common prefixes |
| BtreeGist.CutKeyExactly | gitrepo/postgresqlgit/contrib/btree_gist/btree_utils_var.c:204-229 | A truncated key keeps every string that its parts may hold if and only if no part is exposed: a part whose upper bound is a proper prefix of the cut upper bound with a continuation byte below 255 |
| BtreeGist.UnionHolds | gitrepo/postgresqlgit/contrib/btree_gist/btree_utils_var.c:322-358 | The cut of a union exposes no part: what a part may hold, the union may hold |
| BtreeGist.HistoryHolds | gitrepo/postgresqlgit/contrib/btree_gist/btree_utils_var.c:204-358 | Through any number of unions, or a split of leaf entries, every stored string is at or above the lower bound and at or below the upper one or an extension of it |
| BtreeGist.HeldMatchIsConsistent | gitrepo/postgresqlgit/contrib/btree_gist/btree_utils_var.c:553-611 | For all six strategies a key that may hold a match is not pruned |
| BtreeGist.EnteredExactly | gitrepo/postgresqlgit/contrib/btree_gist/btree_utils_var.c:553-611 | For all six strategies a page is entered if and only if some string that its key may hold matches, or in one of the named cases, which are all in vain: for < a query equal to the lower bound; for =, >= and > a query above everything held that starts with a bound; for > also one equal to an upper bound that was not cut |
| BtreeGist.LeafIsExact | gitrepo/postgresqlgit/contrib/btree_gist/btree_utils_var.c:563-605 | On a leaf the test is the comparison |
| BtreeGist.SearchIsScan | gitrepo/postgresqlgit/contrib/btree_gist/btree_utils_var.c:553-611 | A search through an index of any depth and history returns exactly what a scan of the stored strings returns |
| BtreeGistOps.SplitOfDataIsHistory | gitrepo/postgresqlgit/contrib/btree_gist/btree_utils_var.c:513-544 | A split of leaf entries is one of the histories above |
| BtreeGistOps.SideHoldsExactly | gitrepo/postgresqlgit/contrib/btree_gist/btree_utils_var.c:529-544 | Over node keys, a side of a split keeps every string if and only if no cut key of the side ends, before the cut length of the split, inside the largest upper bound of the side |
| BtreeGistOps.LongerSideHolds | gitrepo/postgresqlgit/contrib/btree_gist/btree_utils_var.c:529-544 | The side with the longer prefix never loses a string |
| BtreeGistOps.SplitOfNodesLosesAString | gitrepo/postgresqlgit/contrib/btree_gist/btree_utils_var.c:529-544 | Two node keys and two others with a longer common prefix: the key of the first two does not find a string stored below them |
| BtreeGistOps.SplitLosesAString | gitrepo/postgresqlgit/contrib/btree_gist/btree_utils_var.c:458-547 | The split run on that page of four entries in sorted order puts the two keys left, and an equality search does not enter the left side |
| IntQuery.ExprPol | gitrepo/postgresqlgit/contrib/intarray/_int_bool.c:153-224 | Up to the token that ends it, an expression is translated to its postfix form, or refused exactly if its operators need more than the 16 places of the stack |
| IntQuery.ParseExpr | gitrepo/postgresqlgit/contrib/intarray/_int_bool.c:48-131 | Every token stream that the scanner can deliver without an error is the token sequence of an expression of the grammar, in which ! binds tighter than & and & tighter than the bar |
| IntQueryScan.StreamLegal | gitrepo/postgresqlgit/contrib/intarray/_int_bool.c:48-131 | The scanner delivers operand and operator in turn with balanced parentheses, or an error |
| IntQueryScan.DoomedFails | gitrepo/postgresqlgit/contrib/intarray/_int_bool.c:153-224 | A stream with an error is never compiled |
| IntQueryScan.CompileExactly | gitrepo/postgresqlgit/contrib/intarray/_int_bool.c:48-224 | A text is accepted if and only if it is an expression that fits the stack, and then it is compiled to the postfix form of every reading of it |
| IntQueryText.ReadsExactly | gitrepo/postgresqlgit/contrib/intarray/_int_bool.c:48-130 | The scanner delivers the tokens of an expression if and only if the text is lexemes in their order with spaces before, between and after them |
| IntQueryText.StrtolReads | gitrepo/postgresqlgit/contrib/intarray/_int_bool.c:95-100 | A numeral means the sum of its digits times the powers of ten, or, after a leading zero, of its octal digits times the powers of eight |
| IntQueryScan.WorkState.GetToken | gitrepo/postgresqlgit/contrib/intarray/_int_bool.c:48-131 | The character loop over the mutable work state delivers the next token and position |
| IntQueryScan.WorkState.MakePolish | gitrepo/postgresqlgit/contrib/intarray/_int_bool.c:153-224 | The recursive loop with its operator stack computes the translation |
| IntQueryExec.LinksReachExactly | gitrepo/postgresqlgit/contrib/intarray/_int_bool.c:440-471 | The links stored in 16 bits lead from every operator to its left operand if and only if no right operand of the query has 32768 items or more |
| IntQueryExec.FindOprnd | gitrepo/postgresqlgit/contrib/intarray/_int_bool.c:440-471 | The in-place pass from the right stores at every operator the distance to its left operand and changes nothing else |
| IntQueryExec.BqarrIn | gitrepo/postgresqlgit/contrib/intarray/_int_bool.c:477-543 | The input function accepts exactly the texts that spell an expression within the limits and stores its linked postfix form |
| IntQueryExec.SamePostfix | gitrepo/postgresqlgit/contrib/intarray/_int_bool.c:440-471 | The links depend on the postfix items only |
| IntQueryExec.ExecuteIsValue | gitrepo/postgresqlgit/contrib/intarray/_int_bool.c:266-295 | Evaluation along the links is the value of the infix expression for every truth assignment |
| IntQueryExec.CompiledQueryIsItsExpression | gitrepo/postgresqlgit/contrib/intarray/_int_bool.c:477-543 | From text to truth value, for every accepted query: its links lead to its operands if and only if they fit, and then it evaluates to the expression it reads as |
| IntQueryExec.LossyExecute | gitrepo/postgresqlgit/contrib/intarray/_int_bool.c:266-306 | With NOT taken as true, an evaluation over more values than the array has is true whenever the exact one is |
| IntQueryExec.RelaxedExactly | gitrepo/postgresqlgit/contrib/intarray/_int_bool.c:266-306 | With NOT taken as true the evaluation is true if and only if for some way to make the expression true, nothing under NOT being looked at, all values it asks for are there |
| IntQueryExec.CheckConditionArr | gitrepo/postgresqlgit/contrib/intarray/_int_bool.c:235-255 | The binary search is membership |
| IntQueryExec.QueryExtract | gitrepo/postgresqlgit/contrib/intarray/_int_gin.c:23-57 | The extracted entries are the values of the query in order; a full index scan is asked for exactly if the query, NOT taken as true, holds with no value present, and otherwise every array that satisfies it has one of the entries |
| IntQueryExec.MapCheck | gitrepo/postgresqlgit/contrib/intarray/_int_bool.c:351-357 | The answers are put back at the positions of their values |
| IntQueryExec.GinBoolConsistent | gitrepo/postgresqlgit/contrib/intarray/_int_bool.c:336-362 | The index's answers, remapped, give what evaluation on the array itself gives, and the value of the expression if the links fit |
| IntQueryExec.RequiredValue | gitrepo/postgresqlgit/contrib/intarray/_int_bool.c:364-397 | Whenever a query is said to have a required value, an array that satisfies it contains one of its values |
| IntQueryExec.RequiredExactly | gitrepo/postgresqlgit/contrib/intarray/_int_bool.c:364-397 | There is a required value if and only if the evaluation with NOT taken as true and no value present is false |
| IntQueryExec.RequiredIsNeeded | gitrepo/postgresqlgit/contrib/intarray/_int_bool.c:364-397 | On the expression: if and only if every way to make it true, nothing under NOT being looked at, asks for some value |
| IntQueryPrint.Printer.Print | gitrepo/postgresqlgit/contrib/intarray/_int_bool.c:564-638 | The printer, running backwards over the items, writes the text of the expression |
| IntQueryPrint.BqarrOut | gitrepo/postgresqlgit/contrib/intarray/_int_bool.c:641-660 | The output function writes the text of the whole query |
| IntQueryPrint.RereadMeans | gitrepo/postgresqlgit/contrib/intarray/_int_bool.c:564-638 | What the printed text reads as has the same value and is shallow enough for the operator stack |
| IntQueryPrint.PrintedScanned | gitrepo/postgresqlgit/contrib/intarray/_int_bool.c:564-638 | Scanning the printed text delivers the tokens of that reading |
| IntQueryPrint.PrintedReadsBack | gitrepo/postgresqlgit/contrib/intarray/_int_bool.c:641-660 | Every stored query, whatever its links, is accepted again from its own output, without the depth error, and means the same |
| IntQueryTrip.TextRoundTrip | gitrepo/postgresqlgit/contrib/intarray/_int_bool.c:477-660 | Text to items to text: an accepted text is stored as a parenthesis-free expression with the same items, and prints as a text that is accepted and means what the first text meant |
| IntQueryTrip.LongOperandIsMislinked | gitrepo/postgresqlgit/contrib/intarray/_int_bool.c:461-470 | Accepted texts with a right operand of 32769 to 65533 items: the link of the operator points to the right, outside the items |
| IntRanges.Double | gitrepo/postgresqlgit/contrib/intarray/_int_gist.c:189-190 | Going from the right, every element is duplicated in place before it is overwritten |
| IntRanges.NarrowestGap | gitrepo/postgresqlgit/contrib/intarray/_int_gist.c:196-202 | The scan finds the first narrowest gap, as 32-bit subtraction sees it |
| IntRanges.SomeGapIsNarrower | gitrepo/postgresqlgit/contrib/intarray/_int_gist.c:192-202 | There always is a gap below INT_MAX, so the candidate never is the stale one of an earlier round |
| IntRanges.Compress | gitrepo/postgresqlgit/contrib/intarray/_int_gist.c:172-214 | Every sorted duplicate-free key of 200 or more integers becomes exactly 100 ordered disjoint ranges that begin and end with elements of the key, and no gap that was closed is wider than one that was kept; shorter keys stay as they are |
| IntExpand.InternalSize | gitrepo/postgresqlgit/contrib/intarray/_int_tool.c:277-290 | The 32-bit sum of the range lengths, ranges that repeat a bound not counted |
| IntExpand.SizeExactly | gitrepo/postgresqlgit/contrib/intarray/_int_tool.c:277-290 | That sum is the number of integers written if and only if every range that begins where the one before ends holds nothing else |
| IntExpand.CountingEndsExactly | gitrepo/postgresqlgit/contrib/intarray/_int_gist.c:267-270 | The inner loop over a range ends if and only if the range does not end with the largest 32-bit integer |
| IntExpand.Decompress | gitrepo/postgresqlgit/contrib/intarray/_int_gist.c:216-279 | Writes exactly the integers of the ranges if and only if they are clean, an array can hold them and the largest integer is not among them; the allocation is refused exactly if its 32-bit size is negative or over the limit |
| IntExpand.ExpandableExactly | gitrepo/postgresqlgit/contrib/intarray/_int_gist.c:261-270 | The array is allocated and all that the loops write lies inside it, if and only if the ranges are clean, 24 bytes and four for each integer stay within the allocation limit, and the largest integer is not covered |
| IntExpand.ExpandedGrows | gitrepo/postgresqlgit/contrib/intarray/_int_gist.c:267-270 | The result is strictly sorted and ends with the last bound |
| IntExpand.ExpandedMeans | gitrepo/postgresqlgit/contrib/intarray/_int_gist.c:267-270 | The result holds exactly the integers inside some range |
| IntCover.RangesExpand | gitrepo/postgresqlgit/contrib/intarray/_int_gist.c:172-270 | Decompressing a compressed key gives a strictly sorted superset of the key with the same first and last element |
| IntCover.CoverTotal | gitrepo/postgresqlgit/contrib/intarray/_int_gist.c:172-270 | The number of integers covered is the span of the key less the gaps that were kept |
| IntCover.SmallestExactly | gitrepo/postgresqlgit/contrib/intarray/_int_gist.c:192-208 | No other way to draw as many ranges around the key covers fewer integers, if and only if no gap is too wide for a 32-bit subtraction |
| IntCover.TooWideIsClosed | gitrepo/postgresqlgit/contrib/intarray/_int_gist.c:196-202 | A gap too wide for 32 bits is the widest of all and is closed first |
| IntCover.ReadableExactly | gitrepo/postgresqlgit/contrib/intarray/_int_gist.c:246-270 | A compressed key can be read back if and only if 24 bytes and four for each covered integer stay within the allocation limit of 0x3fffffff, and the largest integer is not covered |
| IntCover.EvenIsRefused | gitrepo/postgresqlgit/contrib/intarray/_int_gist.c:261-265 | The key 0, 3000000, ..., 597000000, none of whose gaps overflows: whichever 99 gaps are kept, reading it back is refused |
| IntCover.TooWideIsUnreadable | gitrepo/postgresqlgit/contrib/intarray/_int_gist.c:246-270 | A closed gap that overflows leaves a key that cannot be read back |
| IntGist.IntUnique | gitrepo/postgresqlgit/contrib/intarray/_int_tool.c:292-313 | The in-place loop leaves the distinct elements, strictly sorted |
| IntGist.InnerIntContains | gitrepo/postgresqlgit/contrib/intarray/_int_tool.c:11-44 | The two-index loop is set inclusion |
| IntGist.InnerIntOverlap | gitrepo/postgresqlgit/contrib/intarray/_int_tool.c:46-74 | The two-index loop is non-empty intersection |
| IntGist.GIntUnion | gitrepo/postgresqlgit/contrib/intarray/_int_gist.c:98-133 | The key above entries is the strictly sorted union of their elements |
| IntGist.GIntConsistent | gitrepo/postgresqlgit/contrib/intarray/_int_gist.c:33-96 | For each strategy the leaf test is the search condition itself and the page test the weaker one; a recheck is asked for only for equality |
| IntGist.HistoryHolds | gitrepo/postgresqlgit/contrib/intarray/_int_gist.c:98-279 | Through any number of unions and compressions a key keeps every element of every array below it |
| IntGist.MatchIsConsistent | gitrepo/postgresqlgit/contrib/intarray/_int_gist.c:61-92 | A match below a page makes its key consistent for overlap, same, contains and boolean queries, and for "contained by" if the array is not empty |
| IntGist.PageTestExactly | gitrepo/postgresqlgit/contrib/intarray/_int_gist.c:61-92 | A page is entered if and only if some array of elements of its key matches, for "contained by" one that is not empty |
| IntGist.BooleanPageExactly | gitrepo/postgresqlgit/contrib/intarray/_int_gist.c:47-56 | For a boolean query: if and only if some way to make it true, nothing under NOT being looked at, has its values in the key |
| IntGist.ContainedByExactly | gitrepo/postgresqlgit/contrib/intarray/_int_gist.c:84-89 | A "contained by" search can rely on the page keys if and only if the stored array is not empty |
| IntGist.SearchIsScan | gitrepo/postgresqlgit/contrib/intarray/_int_gist.c:33-96 | A search through pages of any depth, whose keys came about by any unions and compressions of what is below them, finds what a scan of the stored arrays finds |
| IntGist.TrackedIsKept | gitrepo/postgresqlgit/contrib/intarray/_int_gist.c:98-279 | In such a tree every page key holds every array below the page |
| IntGist.ThroughPage | gitrepo/postgresqlgit/contrib/intarray/_int_gist.c:137-279 | A page key that is compressed and read again is a sorted superset of itself and still has everything below it in its history |
| IntGist.UnionGrows | gitrepo/postgresqlgit/contrib/intarray/_int_gist.c:98-133 | The union of page keys has everything below them in its history |
| IntSign.GenSign | gitrepo/postgresqlgit/contrib/intarray/_intbig_gist.c:136-176 | The signature of an array has exactly the bits its elements hash to |
| IntSign.SignsOnce | gitrepo/postgresqlgit/contrib/intarray/_intbig_gist.c:136-176 | Arrays with the same elements have the same signature |
| IntSignTree.UnionKey | gitrepo/postgresqlgit/contrib/intarray/_intbig_gist.c:255-266 | In place, exactly the bits of the added key come in; a flagged key is reported instead |
| IntSignTree.GIntBigUnion | gitrepo/postgresqlgit/contrib/intarray/_intbig_gist.c:268-298 | The union has exactly the bits that some entry has, and the all-true flag if and only if some entry has it |
| IntSignTree.GIntBigCompress | gitrepo/postgresqlgit/contrib/intarray/_intbig_gist.c:177-204 | Compressing a page key changes no bit, and the flag stands for exactly the full signatures |
| IntSignTree.GIntBigConsistent | gitrepo/postgresqlgit/contrib/intarray/_intbig_gist.c:491-601 | The answer for each strategy, at leaves and pages, is the stated condition on bits; every answer asks for a recheck |
| IntSignTree.MatchPassesLeaf | gitrepo/postgresqlgit/contrib/intarray/_intbig_gist.c:508-599 | A matching array is never refused at its own entry |
| IntSignTree.MatchPassesPage | gitrepo/postgresqlgit/contrib/intarray/_intbig_gist.c:508-599 | A match of a boolean, overlap, contains or same query below a page passes the page, NOT being taken as true; for "contained by" if the array is not empty |
| IntSignTree.SignTestExactly | gitrepo/postgresqlgit/contrib/intarray/_intbig_gist.c:508-599 | A page is entered if and only if it has the flag or some array whose bits it has matches |
| IntSignTree.BooleanSignExactly | gitrepo/postgresqlgit/contrib/intarray/_intbig_gist.c:508-516 | For a boolean query: if and only if some way to make it true, nothing under NOT being looked at, has its bits in the signature |
| IntSignTree.LeafTestExactly | gitrepo/postgresqlgit/contrib/intarray/_intbig_gist.c:508-599 | An entry passes if and only if some array with exactly its signature matches |
| IntSign.HashOfInt32 | gitrepo/postgresqlgit/contrib/intarray/_int.h:66 | The bit of an integer is the remainder of its 32-bit unsigned value |
| IntSignTree.ContainedByPassesExactly | gitrepo/postgresqlgit/contrib/intarray/_intbig_gist.c:593-594 | A "contained by" search can rely on the page signatures if and only if the stored array is not empty |
| IntSignSearch.SignSearchIsScan | gitrepo/postgresqlgit/contrib/intarray/_intbig_gist.c:491-601 | A search followed by the recheck, through pages whose keys came about by any unions, splits and compressions, finds what a scan of the stored arrays finds |
| IntSignSplit.HemDist | gitrepo/postgresqlgit/contrib/intarray/_intbig_gist.c:207-247 | The distance computed byte by byte from the table of one-bits, with the cases for flagged keys |
| IntSignSplit.DistIsDiffering | gitrepo/postgresqlgit/contrib/intarray/_intbig_gist.c:207-247 | That distance is the number of bit positions in which the two keys differ, a flagged key having all bits |
| IntSignPick.PickSeeds | gitrepo/postgresqlgit/contrib/intarray/_intbig_gist.c:354-382 | The seeds are the first pair at the greatest distance among all entries but the last, or the first two entries if there is no such pair |
| IntSignPick.GIntBigPickSplit | gitrepo/postgresqlgit/contrib/intarray/_intbig_gist.c:327-489 | For every order the sort may leave: an entry that is no seed goes left if and only if it differs in fewer bits from what the left side has so far, its seed and the entries placed before, than from what the right side has plus the balance term |
| IntSignPick.NearerSideTaken | gitrepo/postgresqlgit/contrib/intarray/_intbig_gist.c:425-482 | The same of the placing as a function |
| IntSignPick.NearerGoesThere | gitrepo/postgresqlgit/contrib/intarray/_intbig_gist.c:448 | While the sides differ by at most 46 entries, an entry strictly nearer to one side goes there, and one as near to both goes left if and only if the left side is smaller |
| IntSignPick.WishFavours | gitrepo/postgresqlgit/contrib/intarray/_int.h:46 | The balance term is positive exactly if the left side is smaller, and less than one bit exactly up to 46 entries of difference |
| IntSignPick.SplitKeeps | gitrepo/postgresqlgit/contrib/intarray/_intbig_gist.c:384-488 | Every offset is on exactly one side, no side is empty, and each side's key has exactly the bits of its entries |
| IntSignPick.BitsExactly | gitrepo/postgresqlgit/contrib/intarray/_intbig_gist.c:136-298 | Through any number of unions, splits and compressions a key has exactly the bits that the arrays below it hash to: none lost, none invented |
| IntSignSearch.HistoryCovers | gitrepo/postgresqlgit/contrib/intarray/_intbig_gist.c:136-298 | A key of any history covers every array that went into it |
| IntSignSearch.SplitTracks | gitrepo/postgresqlgit/contrib/intarray/_intbig_gist.c:327-489 | Both sides of a split have exactly the histories of their entries, and every entry is on exactly one side |
| IntSignSearch.UnionGrows | gitrepo/postgresqlgit/contrib/intarray/_intbig_gist.c:177-298 | The compressed union of page keys has everything below them in its history |
| HstoreFormat.DecodeEncode | gitrepo/postgresqlgit/contrib/hstore/hstore.h:17-83 | Encoding pairs by end offsets and flags and reading them back gives the pairs |
| HstoreFormat.EncodeDecode | gitrepo/postgresqlgit/contrib/hstore/hstore.h:17-83 | Encoding what was read from a well-formed value gives the same entries, bytes and size |
| HstoreFormat.PackPairs | gitrepo/postgresqlgit/contrib/hstore/hstore_io.c:374-401 | Packing gives the encoding of the pairs, or the error exactly if the size is over the limit |
| HstoreFormat.AddItem | gitrepo/postgresqlgit/contrib/hstore/hstore.h:112-126 | One pair appended to a value under construction, offsets masked to 30 bits |
| HstoreText.PrintedRead | gitrepo/postgresqlgit/contrib/hstore/hstore_io.c:60-279 | Parsing a printed list of pairs gives those pairs: quotes, backslashes, the string "null" and a real NULL included |
| HstoreIO.HSParser.ReadWord | gitrepo/postgresqlgit/contrib/hstore/hstore_io.c:60-173 | The character state machine with its growing buffer finds a word if and only if the text begins, after white space, with a word of the grammar, quoted or bare for its place, and then its content, whether it was quoted, and what follows it; it finds the end if and only if there is white space only |
| HstoreIO.HSParser.ParseHstore | gitrepo/postgresqlgit/contrib/hstore/hstore_io.c:182-279 | The parser accepts a text if and only if it spells pairs by the grammar, and yields these pairs |
| HstoreGrammar.ParsedExactly | gitrepo/postgresqlgit/contrib/hstore/hstore_io.c:182-279 | A text is read as given pairs if and only if it spells them: words quoted with anything escaped, or bare with escapes up to white space or the sign that ends them, white space around the parts, commas between the pairs and perhaps after the last, a bare null in any case for Null |
| HstoreGrammar.WordExactly | gitrepo/postgresqlgit/contrib/hstore/hstore_io.c:60-173 | The same of one word |
| HstoreGrammar.SpelledIsRead | gitrepo/postgresqlgit/contrib/hstore/hstore_io.c:182-279 | Every spelling of pairs is read as these pairs |
| HstoreGrammar.ReadIsSpelled | gitrepo/postgresqlgit/contrib/hstore/hstore_io.c:182-279 | Every accepted text is a spelling of the pairs read |
| HstoreGrammar.PrintedExactly | gitrepo/postgresqlgit/contrib/hstore/hstore_io.c:1104-1186 | What is printed is the spelling with every word quoted except NULL, a backslash before quotes and backslashes only, and one space after each comma |
| HstoreIO.SortedOnce | gitrepo/postgresqlgit/contrib/hstore/hstore_io.c:281-303 | Pairs with distinct keys have only one sorted arrangement, whatever qsort does |
| HstoreIO.UniqIncreasing | gitrepo/postgresqlgit/contrib/hstore/hstore_io.c:311-351 | After removing duplicates the keys are strictly increasing |
| HstoreIO.HstoreUniquePairs | gitrepo/postgresqlgit/contrib/hstore/hstore_io.c:311-351 | The in-place loop keeps the first pair of each key and computes the bytes they need |
| HstoreIO.UniqExactly | gitrepo/postgresqlgit/contrib/hstore/hstore_io.c:328-346 | A pair is kept if and only if it begins a run of equal keys |
| HstoreIO.StoredIsValid | gitrepo/postgresqlgit/contrib/hstore/hstore_io.c:405-421 | Every accepted text is stored as a valid value: strictly sorted keys, non-decreasing end offsets, first flag on entry 0 only, exact size |
| HstoreIO.StoredOfSpelled | gitrepo/postgresqlgit/contrib/hstore/hstore_io.c:405-421 | A text that spells pairs is stored with each of their keys once, and with the value of a pair that has it |
| HstoreIO.HstoreRoundTrip | gitrepo/postgresqlgit/contrib/hstore/hstore_io.c:405-421 | Printing a stored value without NUL bytes and reading the text gives the same stored value |
| HstoreOut.HstoreInput | gitrepo/postgresqlgit/contrib/hstore/hstore_io.c:405-421 | The input function run on mutable state computes the specified value |
| HstoreOut.PairFits | gitrepo/postgresqlgit/contrib/hstore/hstore_io.c:1144-1154 | A printed pair with its separator and a terminator fits into the space reserved for the pair |
| HstoreOut.Cpw | gitrepo/postgresqlgit/contrib/hstore/hstore_io.c:1104-1116 | The copy loop writes the escaped text and nothing else |
| HstoreOut.HstoreOut | gitrepo/postgresqlgit/contrib/hstore/hstore_io.c:1119-1186 | The output function writes the printed text and its terminator inside the buffer computed beforehand, and refuses exactly if that buffer is larger than the allocation limit |
| HstoreOut.SpaceIsInt32 | gitrepo/postgresqlgit/contrib/hstore/hstore_io.c:1144-1154 | The computed buffer length of a stored value fits a 32-bit integer |
| HstoreSearch.HstoreFindKey | gitrepo/postgresqlgit/contrib/hstore/hstore_op.c:36-71 | The binary search from the cached lower bound finds the key if and only if the whole map has it, and leaves a bound below which no later key can lie |
| HstoreSearch.NextKey | gitrepo/postgresqlgit/contrib/hstore/hstore_op.c:36-71 | For the next key of an increasing sequence that bound is a correct starting point |
| HstoreSearch.HstoreArrayToPairs | gitrepo/postgresqlgit/contrib/hstore/hstore_op.c:73-126 | A key array becomes the same keys, strictly increasing |
| HstoreSearch.ExistsAny | gitrepo/postgresqlgit/contrib/hstore/hstore_op.c:164-194 | True if and only if some listed key is in the map |
| HstoreSearch.ExistsAll | gitrepo/postgresqlgit/contrib/hstore/hstore_op.c:198-228 | True if and only if all listed keys are in the map |
| HstoreSearch.HstoreContains | gitrepo/postgresqlgit/contrib/hstore/hstore_op.c:967-1011 | True if and only if every pair of the template is a pair of the value |
| HstoreSearch.SliceToHstore | gitrepo/postgresqlgit/contrib/hstore/hstore_op.c:634-692 | The result is a valid encoding of exactly the pairs with a listed key, and never too big if the value was not |
| HstoreMerge.CopyItem | gitrepo/postgresqlgit/contrib/hstore/hstore.h:99-106 | One pair copied from another value keeps the encoding of the pairs so far |
| HstoreMerge.Finalize | gitrepo/postgresqlgit/contrib/hstore/hstore.h:129-140 | The finished value is the encoding of the pairs |
| HstoreMerge.HstoreDeleteArray | gitrepo/postgresqlgit/contrib/hstore/hstore_op.c:294-369 | Exactly the pairs with a listed key are removed: the stored map less the set of keys, validly encoded |
| HstoreMerge.HstoreDeleteHstore | gitrepo/postgresqlgit/contrib/hstore/hstore_op.c:373-469 | Exactly the pairs equal in key and value are removed, and the result is a valid encoding |
| HstoreMerge.HstoreConcat | gitrepo/postgresqlgit/contrib/hstore/hstore_op.c:473-567 | The stored map of the result is the map of the first value plus the map of the second, validly encoded, or the error exactly if the sizes add up to more than the limit |
| HstoreMaps.ConcatIsUnion | gitrepo/postgresqlgit/contrib/hstore/hstore_op.c:473-567 | The pairs that the merge keeps are right-biased union of the two maps |
| BloomRand.DrawFits | gitrepo/postgresqlgit/contrib/bloom/blutils.c:207-232 | No intermediate value of a draw leaves 32 bits, from any 32-bit state |
| BloomRand.DrawIsProduct | gitrepo/postgresqlgit/contrib/bloom/blutils.c:207-232 | A draw is multiplication by 16807 modulo 2^31 - 1, also from the negative states that large seeds lead to |
| BloomRand.StateIsPower | gitrepo/postgresqlgit/contrib/bloom/blutils.c:207-240 | The k-th state is 16807^k times the seeded state modulo 2^31 - 1 |
| BloomRand.SeededRange | gitrepo/postgresqlgit/contrib/bloom/blutils.c:234-240 | Where a seed leads: within (-(2^31 - 1), 2^31 - 1), to zero for exactly two seeds, to at least 1 for seeds below 2^31 |
| BloomRand.NeverZeroExactly | gitrepo/postgresqlgit/contrib/bloom/blutils.c:207-240 | The generator stays within [1, 2^31 - 2] for ever if and only if the seed is neither 0xffffffff nor 0x80000001 |
| BloomRand.IndexInsideExactly | gitrepo/postgresqlgit/contrib/bloom/blutils.c:267-272 | Every bit index lies inside the signature if and only if the seed is none of those two |
| BloomRand.Generator.MyRand | gitrepo/postgresqlgit/contrib/bloom/blutils.c:207-232 | The static state moves on by one draw, which is returned less one |
| BloomRand.Generator.MySrand | gitrepo/postgresqlgit/contrib/bloom/blutils.c:234-240 | The static state is set from the seed |
| BloomSign.SignValue | gitrepo/postgresqlgit/contrib/bloom/blutils.c:245-273 | Exactly the bits drawn for the column and the hash value are added to the signature, or a bit with a negative number is asked for, exactly if the seed is one of two and the column has bits |
| BloomSign.SeedsDiffer | gitrepo/postgresqlgit/contrib/bloom/blutils.c:251-265 | The generator starts anew for each value from a seed that differs between columns, and within a column between hash values |
| BloomSign.FirstDrawIs | gitrepo/postgresqlgit/contrib/bloom/blutils.c:257 | The first draw for a column in closed form |
| BloomRows.BloomFormTuple | gitrepo/postgresqlgit/contrib/bloom/blutils.c:278-297 | The tuple of a row has exactly the bits of its columns that are not null; it is undefined exactly if some value leads the generator to zero |
| BloomRows.ScanSignature | gitrepo/postgresqlgit/contrib/bloom/blscan.c:91-118 | The first key that is null makes a scan find nothing; without such keys, and without values that lead the generator to zero, its signature has exactly the bits of its keys |
| BloomRows.CheckSignature | gitrepo/postgresqlgit/contrib/bloom/blscan.c:148-156 | The word-by-word test is inclusion of the scan's bits in the tuple's |
| BloomRows.NoFalseNegative | gitrepo/postgresqlgit/contrib/bloom/blscan.c:91-156 | The tuple of a row that has the values of all scan keys passes the test |
| BloomInsert.FitsExactly | gitrepo/postgresqlgit/contrib/bloom/blutils.c:303-325 | A tuple is added exactly if the page stays within its bytes |
| BloomInsert.StepOk | gitrepo/postgresqlgit/contrib/bloom/blinsert.c:188-346 | Every step of any insert or scan between lock acquisitions keeps every page within capacity, nStart <= nEnd, the listed pages existing, one holder of the metapage lock, and what each insert and scan has established |
| BloomInsert.StepGrows | gitrepo/postgresqlgit/contrib/bloom/blinsert.c:188-346 | Pages only grow at their ends and new pages come last |
| BloomInsert.StepPlaces | gitrepo/postgresqlgit/contrib/bloom/blinsert.c:229-334 | A tuple is put on a page with room; under the lock that is the first listed page with room, and a new page is made if and only if the list has been gone through, in which case all listed pages are full |
| BloomRuns.RunConserves | gitrepo/postgresqlgit/contrib/bloom/blinsert.c:188-346 | After any interleaving the index holds, as a multiset, what it held and the tuples of the inserts completed since |
| BloomRuns.CompletedOnExactlyOnePage | gitrepo/postgresqlgit/contrib/bloom/blinsert.c:188-346 | The tuple of a completed insert is on exactly one page, once |
| BloomRuns.RunForgetsNothing | gitrepo/postgresqlgit/contrib/bloom/blinsert.c:265-334 | No interleaving makes the index forget a page with room: such a page is listed, or was unlisted from the start |
| BloomRuns.LaterScanFinds | gitrepo/postgresqlgit/contrib/bloom/blscan.c:120-172 | Whatever else goes on, a scan that begins after an insert is done returns its tuple if that passes the test |
| BloomIndex.InsertedRowIsFound | gitrepo/postgresqlgit/contrib/bloom/blscan.c:81-172 | From rows to results: a row inserted before a scan began is returned if it has the values of all scan keys |
| BloomIndex.Index.PageAddItem | gitrepo/postgresqlgit/contrib/bloom/blutils.c:303-325 | The page takes the tuple at its end if it has room, and is unchanged otherwise |
| BloomIndex.Index.Insert | gitrepo/postgresqlgit/contrib/bloom/blinsert.c:188-346 | The code of an insert, run alone, is a run of the steps and adds exactly its tuple |
| BloomIndex.Index.GetBitmap | gitrepo/postgresqlgit/contrib/bloom/blscan.c:120-172 | A scan, run alone, returns the matching tuples of all pages, in order and each as often as it is stored |

## Left out

- MutateIsPlain: where a listed comparison at negative polarity has all its columns skipped, the flag stays set and tests may be added elsewhere; `MutatorLimits.LeakedTestLeavesScope` shows such a query.
- RewrittenQueryIsCertain: skip lists of schema NOT NULL columns only; `SkipSound.EarnedQueryIsCertain` is the statement for any lists.
- PostParseAnalyse: certainty is stated for fit queries; that no query outside fitness is certain is not claimed, since a skipped test may happen not to matter.
- NeededSound: no EXISTS inside the condition; `SkipLists.InferenceSound` covers it.
- NeededSoundOnce: no EXISTS inside the condition; `SkipLists.NeededValued` covers it.
- PlainJunctionsFit: that ANDs and ORs hold no subquery is not enough, see `HookNots.PlainJunctionsAreNotEnough`; that nothing branches into two, or no AND or OR stands under a NOT inside another, is required too, and the converse is not claimed.
- SettledFit: for queries that do not branch into two; on others the growth of a list is felt at the node that takes it, which `FitIsCertain` covers with the grown lists.
- SplitQueryIsCertain: `optimize_self_constraint_deep`, which runs between the mutator and the split, is skipped.
- The rewriter's conditions are flat: operator arguments are columns or constants, no nested operator expressions; the input has no `IS NULL`; subqueries occur in EXISTS only; nested SELECT in FROM is not modelled.
- TrueSplit: the precondition excludes a root OR and an OR without arguments, for which the loop does not end or has no argument to pick; `TerminatesExactly` states the former.
- DeepSplitMeans: ORs under an odd number of NOTs are excluded; `SplitChoices.PiecesUnderNotsExactly` says when they do not matter.
- ComponentsExactly: at most two columns in each comparison and none outside one; `StepKeepsExactly` says what happens otherwise.
- StepKeepsExactly: lists of relations are compared by what they hold and not by address; `ApartStays` says why that tells them apart.
- The stored length of a list whose cells were linked behind: only what a loop over the list sees is modelled, and not the consistency checks of builds with assertions.
- `rewrite_connexe` and `create_from_query_list` in `exist_optimize.c`: the rewritten queries themselves; only the grouping and the numbering are modelled.
- `self_optimize.c`, `optimize.c`, `certain_answer_marked.c`, `prog/rewrite.py`: unfinished or superseded.
- btree_gist for multi-byte text, its fixed-length types, penalty and leaf compression: only the byte-string type with truncation.
- HstoreInput: the length checks on keys and values are above what the total size limit lets through; multi-byte characters and NUL bytes inside values are left out.
- HstoreRoundTrip: for values without NUL bytes, which the text format cannot carry.
- hstore records, arrays, JSON, hashing, GiST and GIN support: only easy members.
- BqarrIn: recursion depth of the server's stack is not modelled.
- GIntConsistent: leaf arrays of 200 or more elements, which the compressor stores as they are and the decompressor reads as ranges; the notice sent for them.
- GinBoolConsistent: queries whose links leave the items, where evaluation is undefined, are excluded.
- Decompress: keys of 200 and more elements are the ranges of a compressed page key; an odd number of elements is not modelled.
- NearerGoesThere: for sides that differ by more than 46 entries the balance term may outweigh a bit; `GIntBigPickSplit` covers them.
- SignValue: what C makes of a bit with a negative number is not modelled.
- GIntBigPickSplit: the order of the cost vector is any order; the balance term is computed over the reals; the sentinel after the offsets is left out.
- `inner_int_union`, `inner_int_inter`, penalties, `g_int_picksplit`, ltree, cube, seg, the isn tables, dblink and the other contrib modules.
- StepOk: inserts and scans only; the build, vacuum, deleted pages and recycling of free pages are left out, and a new page comes after all others.
- Memory contexts, write-ahead logging, buffer replacement, toasting and error recovery everywhere: a page is a value behind a lock.
