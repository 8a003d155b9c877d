# HodDB core: a verified model

HodDB is an in-memory graph database for building metadata, written in Go. It loads RDF
triples and answers SPARQL queries with property paths. This project models the core of it
in Dafny and proves what the core computes:

* **Path evaluation** (`Closure`, `Graphs`, `Traversal`): nested work lists that search the
  stored graph and stop early when a closure-index entry is present. The meaning proved
  against is SPARQL 1.1 Query Language, sections 9 and 18.4, at set level.
* **Inserts** (`Uris`, `Entities`, `Store`, `Transactions`, `Inserts`): URI and key tables with salted
  hashes, out-edges, in-edges, the predicate index, inverse edges (OWL 2 Structural
  Specification, section 9.2.4) and the transitive closure index, over every run of data sets.
* **Rollups** (`Searches`, `Rollups`, `RollupRuns`, `RollupLoops`, `OutClosures`, `InClosures`):
  the filling of the closure index, as the set of all runs that the unordered iterations of the
  source allow, and what all of them or some of them leave behind.
* **Queries** (`Keymaps`, `Rows`, `Relations`, `Joins`, `Planner`, `Solutions`, `Executor`,
  `Results`, `Queries`): packed rows, indexed relations, the index join, term ordering,
  operator choice, the operators and the projection, against SPARQL sections 18.3 and 18.5.
* **Unions** (`Unions`, `Groups`, `Patterns`): the expansion of a group with unions into
  conjunctions, its meaning, and the whole query built on it.
* **Whole databases** (`Snapshots`, `Databases`): the link from what inserts leave behind to what
  queries assume, and queries stated over the stored triples alone.
* **Shortfalls** (`Shortfalls`): real states on which rollups do less than intended.

The main results, each for all inputs:

1. `Traversal.GetObjectFromSubjectPred`: whatever order things are visited in, the evaluator
   returns exactly the nodes the path relates to the start, if the present index entries are
   exact, and only such nodes if they are sound. The nested searches terminate on every graph.
2. `Transactions.Run`, `Transactions.Transaction.AddTriples`: every run of inserts keeps the
   tables inverse, the edge lists free of duplicates, both halves of the predicate index equal
   and the closure entries true of every predicate that a rollup does not mistake for another;
   on non-reflexive triples the three views of the triple set agree; and if no predicate has
   two declared inverses, the triple set ends up closed under the declarations.
   `Shortfalls.TrueIffUndiverted` shows that the condition on closure entries is exact. Every
   insert is a chain of such steps (`Transactions.Inserted`): the data set is loaded, each noted
   inverse reversed once, and exactly its predicates and their noted inverses rolled up. From
   that alone follow what a run leaves in the index and in the name tables
   (`Inserts.LoadedIsRecorded`, `Inserts.InsertIsExact`, `Inserts.RunNames`).
3. `OutClosures.OutExactIff`, `InClosures.InExactIff`, `RollupRuns.CompletesIff`: for which
   predicates, and which records, every order in which a rollup may walk its subjects, objects
   and results completes and leaves the exact closure, forward and backward, cycles included;
   for all others an order that does not. `Transactions.Transaction.RollupPredicate` takes
   such a run.
4. `Patterns.RunQuery`, over `Queries.GetQueryResults` and the loop invariant
   `Executor.ContextOk`: ordering, planning, running and projecting a query gives only keys
   that some solution of the WHERE clause selects, if every union branch binds what is
   selected, and gives all of them when the searches are exact, except answers whose hash
   another answer shares (answers that hold the zero key count as unbound and are dropped, as in
   the source). A tuple comes once for each branch that has it, so a query without unions
   returns none twice. `Databases.QueryStored` states this over the entity table and the triples
   that a run of non-reflexive inserts leaves stored, and `Databases.InsertAndAsk` follows a
   triple from the data set to the results of the query for its object.
5. `Joins.NaturalIffOnAllShared`, `Unions.MergeIffCovered`, `Store.InsertKeepsViewsIff`,
   `Store.ReverseKeepsViewsIff`, `Traversal.ConverseIffReversible`,
   `Traversal.ExactIffKnownOrDead`, `Uris.RoundTrip`, `Results.MissingIff`,
   `Patterns.BranchIsRightIff`, `Snapshots.ServesIffViewsAgree`, `Planner.PlacedIff`: operations
   that do less than they promise meet the promise exactly under the stated condition.
6. `Planner.FinishesIff`, `Planner.StuckIff`, `Planner.FormQueryPlan`: ordering takes, at each
   step, the first term left that shares a variable with the last one taken, and never ends
   exactly if it comes to a nonempty rest without such a term; planning gives each term the
   one operator that suits what earlier operators resolved, and fails exactly if a term has no
   variable.

Keys are eight bytes (`Keys.Key`). Stores are maps. Iteration over a Go map or a bitmap is an
arbitrary choice. The two directions of an operation that the source writes out twice (follow
from subject or from object, resolve subject or object) are one method with a direction
parameter `Dir`. `hide` statements only keep proofs short.

Findings about the code that the model keeps as they are:

* `reversePath` leaves the middle element of an odd path of three or more segments at its zero
  value (db/util.go:125-135), so backward evaluation of such a path finds nothing.
* A predicate the store does not know makes a path find nothing, even `p?` and `p*` at their
  own start (`Traversal.UnknownOptionalStep`). Evaluation is exact all the same if some unknown
  step is mandatory (`Traversal.ExactIffKnownOrDead`, for both directions).
* Loading subject and object as two copies loses the out-edge of a new reflexive triple
  (db/transaction.go:408-426), and the subject's half of a new reflexive inverse pair
  (db/transaction.go:312-329).
* A rollup goes from a key to a URI and back to a key. A literal such as "a:b" is stored under
  bytes that read back as the qualified name a#b, so rolling it up follows another predicate and
  can leave entries that are not true (`Shortfalls.DivertedRollup`, `Shortfalls.LiteralIsDiverted`).
* A rollup stops at a result without an index record. It completes in every order if all objects
  of non-reflexive pairs have records, and otherwise can stop (`RollupRuns.CompletesIff`); with a
  single non-reflexive triple and no records it always stops (`Shortfalls.FirstTripleAborts`).
* A rollup searches without the outer work list, so at an index hit it loses what only a sibling
  leads to (`OutClosures.SiblingLost`). Every order leaves the exact out-entries if and only if
  the predicate loses no siblings (`OutClosures.OutExactIff`), as functional predicates and those
  whose objects are never subjects do not. An entry that is present is not extended when more
  triples are inserted (`OutClosures.PresentStays`).
* `Max` and `DeleteMax` choose independently, so a record may be told of some of the nodes that
  reach it only, and its own search then returns at that entry. Every order leaves the exact
  in-entries if and only if nodes that reach a common node reach nothing else
  (`InClosures.InExactIff`); a chain of three nodes is enough to fail (`Shortfalls.ChainExample`).
* A union branch that does not mention a selected variable reports the value at position zero for
  it, the value of another variable (db/context.go:154-187): its results are answers exactly if it
  binds what is selected or has none (`Patterns.BranchIsRightIff`, `Patterns.UnionReportsAnother`).
* `join` overwrites variables that both sides bind when they are not join variables.
* `makeDependencyGraph` never ends when no remaining term shares a variable with the term
  chosen last, even if the terms are connected (`Planner.ConnectedYetStuck`).
* `addLink` resolves the variable it hangs below another one only. After a scan of a predicate the
  subject is unresolved, so `?a p ?b . ?a p ?c` scans twice (`Planner.ScanForgets`): a term is
  filtered exactly if operators placed both its ends, which is the same as both ends occurring in
  earlier terms exactly as far as no earlier term leaves a variable behind (`Planner.PlacedIff`).
* Of several declared inverses of a predicate the table of inverses keeps one, and an insert
  honours only that one (`Inserts.ReversesMirror`).
* `MergeGraphGroups` turns a conjunction of two unions into one union of all their members
  (`Unions.MergeLosesUnions`).

Verify everything with `dafny verify dfyconfig.toml`.

## Model

| member | source | states |
|---|---|---|
| Uris.RoundTrip | turtle/handle.go:32-71 | `ParseURI` undoes `Bytes` for exactly the well-formed URIs |
| Uris.ReadVariableIff | turtle/handle.go:46-71 | a name read back is a variable iff its value begins with a question mark, whatever its namespace |
| Uris.ParsedShape | turtle/handle.go:50-71 | a parsed namespace was cut off the trimmed text at a '#' or at a ':' and nothing is lost |
| Uris.TrimmedReadsBack | turtle/handle.go:53-70 | a text without angle brackets is read as itself iff nothing is split off or trimmed |
| Uris.SplitAt | turtle/handle.go:56-57 | a text with one separator splits into its two sides |
| Uris.BytesInjective | turtle/handle.go:39-44 | well-formed URIs with the same bytes are equal |
| Uris.BytesCollide | turtle/handle.go:39-44 | a well-formed and an ill-formed URI that share their bytes |
| Uris.LiteralReadsBackElsewhere | turtle/handle.go:50-71 | the literal "a:b" is parsed to a URI whose bytes are parsed to another URI with other bytes |
| Closure.ClosedContainsPlus | db/traversal.go:348-377 | a set closed under edges from its start contains everything one or more steps away |
| Closure.PlusMonotone | db/transaction.go:209-216 | closure facts stay true when triples are added |
| Graphs.PathSplitLast | db/traversal.go:449-486 | a path's relation composes also at its last segment |
| Graphs.PathConverse | db/traversal.go:383-437 | the reversed path over in-edges is the converse relation when in-edges and out-edges agree |
| Keymaps.Keymap.Add | db/keymap.go:13-15 | exactly the key joins the set |
| Keymaps.Keymap.Delete | db/keymap.go:32-34 | exactly the key leaves the set |
| Keymaps.Keymap.Max | db/keymap.go:42-49 | some member, or the zero key of an empty set |
| Keymaps.Keymap.DeleteMax | db/keymap.go:36-40 | removes and returns some member, not necessarily the one `Max` named |
| Entities.WithEdgeAt | db/entity.go:34-57 | an edge list gains exactly the one edge |
| Entities.WithEdgeKeepsFree | db/entity.go:34-83 | edge lists never come to hold duplicates |
| Entities.AddEdge | db/entity.go:34-57 | the scan appends an edge that is not there, reports whether it did |
| Entities.Entity.AddInEdge | db/entity.go:34-57 | only the in-edges of the predicate change, by that edge |
| Entities.Entity.AddOutEdge | db/entity.go:60-83 | only the out-edges of the predicate change, by that edge |
| Entities.EntityExtendedIndex.AddPlusEdge | db/entity.go:154-203 | only the closure list of the direction and predicate changes, by that key |
| Entities.PredicateEntity.AddSubjectObject | db/entity.go:100-125 | both halves of a predicate's record gain the pair; false when it was there |
| Entities.WithPairMeaning | db/entity.go:100-125 | a nested pair table holds exactly one pair more |
| Traversal.Visit | db/traversal.go:289-377 | one turn of the inner search for each pattern, with the index shortcut and both error exits |
| Traversal.StepKeepsInv | db/traversal.go:362-377 | expanding a node keeps the search invariant on results, stack and pushed entities |
| Traversal.ExhaustedIsComplete | db/traversal.go:282-380 | when the inner stack is empty every reachable node is found |
| Traversal.HitIsComplete | db/traversal.go:354-361 | after an early index return, whatever the inner search missed is reachable from an entity it pushed outward |
| Traversal.StopIsCorrect | db/traversal.go:322-361 | leaving the search early, by a hit or by an error, keeps its results sound and its omissions covered |
| Traversal.Search | db/traversal.go:270-381 | the inner search terminates by untraversed nodes and stack length, and meets its postcondition on any graph |
| Traversal.FollowPath | db/traversal.go:154-381 | one follow call in either direction, every pattern |
| Traversal.OuterStepComplete | db/traversal.go:455-470 | one outer turn keeps: everything reachable is found or reachable from the outer list |
| Traversal.OuterDone | db/traversal.go:461-470 | with the outer list empty, results are complete although inner searches returned early |
| Traversal.FollowSegment | db/traversal.go:449-470 | following one segment from a set of entities finds exactly its image, given exact entries, and ends |
| Traversal.FrontierAdvances | db/traversal.go:471-484 | the image is as good a start for the rest of the path as the start was for all of it |
| Traversal.FollowSegments | db/traversal.go:440-487 | a whole path finds exactly what its relation reaches |
| Traversal.ReversePath | db/util.go:125-135 | the swap loop reverses the path, except that it zeroes the middle of odd paths of three or more |
| Traversal.UnsetRelatesNothing | db/util.go:131 | a path with a zeroed segment relates nothing |
| Traversal.GetObjectFromSubjectPred | db/traversal.go:440-487 | nil iff the subject is not stored; else exactly the objects the path relates to it (exact entries), or only such (sound entries) |
| Traversal.GetSubjectFromPredObject | db/traversal.go:383-437 | nil iff the object is not stored; else what the reversed path reaches over in-edges, which on graphs whose edges agree is the converse of the path if it is reversible, and nothing otherwise |
| Traversal.BackwardMeaning | db/traversal.go:383-437 | a search of the reversed path over in-edges finds the converse of the path, and nothing when reversing went wrong |
| Traversal.ForwardBackwardConverse | db/traversal.go:383-487 | o is found forward from s iff s is found backward from o, for reversible paths |
| Traversal.ConverseIffReversible | db/util.go:125-135 | the two evaluations are converse on all graphs iff the path has length one or even length |
| Traversal.IndexChangesNothing | db/traversal.go:317-361 | with exact present entries, indexed and index-free answers are equal |
| Traversal.DeadStepRelatesNothing | db/traversal.go:274-277 | a mandatory step along an unknown predicate empties a path's relation |
| Traversal.ExactIffKnownOrDead | db/traversal.go:274-277 | evaluation in a direction is exact on every graph with given names iff some unknown step is mandatory, or all predicates are known and, backward, the path is reversible |
| Traversal.UnknownOptionalStep | db/traversal.go:274-277 | an optional step along an unknown predicate relates a node to itself, but nothing is found |
| Store.EmptyStoreValid | db/transaction.go:41-88 | the empty store meets all invariants |
| Store.ReadBack | db/transaction.go:147-160 | reading back a key gives the added URI iff it is well-formed; the zero key reads back as the empty URI |
| Store.AddKeyValid | db/transaction.go:438-486 | a new URI under a free key keeps the tables inverse and every other invariant |
| Store.InsertPairMeaning | db/transaction.go:400-407 | both halves of the predicate index gain exactly the pair |
| Store.InsertEdgesMeaning | db/transaction.go:408-426 | exactly which edges two loads and two conditional saves leave, also for reflexive triples |
| Store.InsertKeepsViewsIff | db/transaction.go:382-432 | the three views stay in step iff the triple is not reflexive or was stored |
| Store.InsertTripleValid | db/transaction.go:382-432 | any triple keeps the store's invariants |
| Store.ClosureGrows | db/transaction.go:382-432 | more triples keep every closure entry true |
| Store.ReverseEdgesMeaning | db/transaction.go:312-329 | exactly which edges one inverse-edge turn leaves; for a reflexive pair only the object's two changes survive |
| Store.InsertReverseValid | db/transaction.go:308-332 | one inverse-edge turn keeps the store's invariants |
| Store.ReverseKeepsViewsIff | db/transaction.go:308-332 | a turn keeps the three views in step iff the pair is not reflexive or its mirror image was stored |
| Searches.StartFinds | db/traversal.go:322-377 | a search whose start has an entry finds exactly that entry; otherwise at least the neighbours |
| Searches.SearchedSound | db/traversal.go:270-381 | one inner search finds only what is reachable, if the entries it may use are true |
| Searches.SearchedSucceeds | db/traversal.go:317-350 | it does not fail if the ends of all edges have records, except perhaps of reflexive ones |
| Searches.SearchedComplete | db/traversal.go:322-381 | without lost siblings, and with exact non-empty entries, one inner search without the outer loop finds everything reachable |
| Searches.UnindexedFindsAll | db/traversal.go:270-381 | with no entries in sight it finds exactly what is reachable, in any graph |
| Searches.NearestFirst | db/traversal.go:282-380 | whatever entries end it, a search has found every node no further away than the nearest node with an entry or without a record |
| Rollups.DrainedEffect | db/transaction.go:528-538 | whatever is named and removed, the records named gain exactly the owner and the owner in memory exactly what was removed |
| Rollups.SavedEffect | db/transaction.go:539-541 | saving the owner last replaces its own stored changes, so an owner named by itself does not learn of itself there |
| Rollups.TurnEffect | db/transaction.go:501-541 | exactly which entries one owner's turn adds, finished or aborted; no other entry changes |
| RollupRuns.FoundReached | db/transaction.go:526-527 | unless it is diverted, an owner's search finds only what the owner reaches by stored triples |
| RollupRuns.TurnKeeps | db/transaction.go:501-541 | one turn keeps every invariant of the store, the truth of entries included |
| RollupRuns.RollupKeeps | db/transaction.go:489-583 | every run, finished or aborted, leaves a valid store in which only this predicate's entries grew |
| RollupRuns.IncompleteAborted | db/transaction.go:528-532 | a run that does not complete met a result without a record, from a known owner |
| RollupRuns.AbortMeansMissing | db/transaction.go:528-532 | then the object of some non-reflexive pair has no record, whatever the predicate's shape, index and order |
| RollupRuns.FirstFinds | db/transaction.go:526-527 | an owner's first search contains all its neighbours, or is exactly its entry |
| RollupRuns.CompletesIff | db/transaction.go:501-532 | every run completes iff the objects of all non-reflexive pairs have records, where the entries present list all neighbours |
| RollupRuns.BarrenAborts | db/transaction.go:526-532 | every run aborts if each owner's search finds something and nothing with a record |
| RollupLoops.FoundExact | db/transaction.go:526-527 | without lost siblings an owner's search finds exactly its closure, in either direction, if the entries present are complete |
| RollupLoops.TurnsComplete | db/transaction.go:501-541 | after any turns every owner's entry is complete, and so is every entry present |
| RollupLoops.LoopCompletes | db/transaction.go:501-580 | a finished loop leaves exactly the closure of its direction |
| RollupLoops.NamingOnly | db/transaction.go:528-538 | results can be removed in any order while one of them is named all the time |
| RollupLoops.FinishLoop | db/transaction.go:501-580 | where all results have records every beginning of a loop can be finished, and no continuation changes what an earlier owner decided |
| OutClosures.RunIsExact | db/transaction.go:489-583 | without lost siblings, with records for the objects and complete entries at the start, every run completes and leaves exactly the forward closure |
| OutClosures.FunctionalIsExact | db/transaction.go:489-583 | in particular for predicates with one object per subject, cycles included |
| OutClosures.FlatIsExact | db/transaction.go:489-583 | and for predicates whose objects are never subjects, such as rdf:type |
| OutClosures.PresentStays | db/transaction.go:527 | the first loop never changes an entry that is present, whatever triples were inserted since |
| OutClosures.SiblingLost | db/transaction.go:527 | a finished run after which a subject's entry lacks a node that only a second sibling leads to |
| OutClosures.OutExactIff | db/transaction.go:489-583 | given names and pairs: every run on every store with them is exact forward iff no siblings are lost |
| InClosures.MeetLosesNothing | db/transaction.go:527 | where nodes meet at ends only, no siblings are lost in either direction |
| InClosures.FunctionalFlatMeet | db/transaction.go:544-580 | nodes meet at ends only if subjects have one object each and objects are never subjects |
| InClosures.TurnsTell | db/transaction.go:528-538 | a subject that reaches a single node has told that node of itself |
| InClosures.InIsExact | db/transaction.go:489-583 | where nodes meet at ends only, every run leaves the exact closure in both directions |
| InClosures.InEntryForgets | db/transaction.go:528-538 | elsewhere a finished run after which a node's in-entry lacks a node that reaches it |
| InClosures.InExactIff | db/transaction.go:489-583 | on a store not yet rolled up: every run is exact backward iff nodes meet at ends only |
| Transactions.Transaction.FreshKey | db/transaction.go:452-468 | the first salted hash that is not taken, in the first half of the key, the second half zero |
| Transactions.FirstFreeUnique | db/transaction.go:452-468 | name and taken keys determine that key |
| Transactions.Transaction.AddURI | db/transaction.go:438-486 | a known URI changes nothing; a new one gets its first free salted hash for a key and an entity without edges |
| Transactions.Transaction.GetPredicateByHash | db/transaction.go:226-245 | the pending record, loaded into the batch on first use |
| Transactions.Transaction.PutEdges | db/transaction.go:408-426 | the graph's new state after both entities are saved |
| Transactions.Transaction.AddTriple | db/transaction.go:382-432 | four URIs get keys, then the triple joins the three views |
| Transactions.Transaction.LoadTriples | db/transaction.go:252-269 | exactly the data set's triples join the triple set and exactly their names the tables; declared inverses and new predicates are noted |
| Transactions.Transaction.CollectInverses | db/transaction.go:275-289 | every stored inverseOf pair, also from earlier transactions, is in the table of inverses |
| Transactions.Transaction.ReversePair | db/transaction.go:308-332 | the new state after one inverse-edge turn |
| Transactions.Transaction.ReversePredicate | db/transaction.go:308-335 | every pair is reversed, also when a symmetric predicate's table grows while it is walked |
| Transactions.Transaction.AddReverseEdges | db/transaction.go:296-337 | every predicate with a noted inverse is reversed once, in some order; the triple set grows and stays in step, and becomes its closure under declared inverses if no predicate has two |
| Transactions.Transaction.RollupAll | db/transaction.go:342-350 | rolls up exactly the given predicates, each once and each followed by its noted inverse, one run after the other, and changes nothing but the index |
| Transactions.Transaction.HandOver | db/transaction.go:533-537 | one turn of the inner loop: one key to the owner's record, the owner to one stored record |
| Transactions.Transaction.Drain | db/transaction.go:528-538 | some sequence of picks, each naming a result left that has a record and removing one; it fails only at a result without a record |
| Transactions.Transaction.RollUpOwner | db/transaction.go:501-581 | one turn of the run relation for a subject or object |
| Transactions.Transaction.RollUpOwners | db/transaction.go:501-580 | one loop of the run relation: each owner once, in any order, until one fails |
| Transactions.Transaction.RollupPredicate | db/transaction.go:489-583 | takes a run, so only this predicate's entries grow; it completes if all objects of non-reflexive pairs have records, for any shape and index; a failure names the owner and the missing record; it must fail if no search finds a record; the forward closure comes out exact where no siblings are lost, both closures where nodes meet at ends only |
| Transactions.Transaction.AddTriples | db/transaction.go:247-367 | invariants kept; the data set loaded, every noted inverse reversed, exactly the data set's predicates and their noted inverses rolled up; views in step, and inverses completed if no predicate has two |
| Transactions.Run | db/insert.go:42-54 | one such insert for each data set of any run: invariants, key stability, every triple stored, views in step on non-reflexive triples, and the last insert's inverse closure if no predicate has two inverses |
| Transactions.InverseSymmetry | db/transaction.go:296-337 | with one inverse per predicate, (s, o) is under p iff (o, s) is under its inverse, in index and edges |
| Transactions.CompletedIsClosed | db/transaction.go:296-337 | then the final store is closed under its own declarations, unless inverseOf itself has an inverse |
| Transactions.InverseLoopEnds | db/transaction.go:296-337 | the loop over the inverse table yields the inverse closure, whatever its order, if no predicate has two inverses |
| Inserts.ReversesMirror | db/transaction.go:296-337 | however many inverses predicates have: each triple stored before is mirrored under the noted inverse, and each triple added mirrors one under a predicate with that inverse |
| Inserts.ChainKeeps | db/transaction.go:342-350 | any chain of rollups leaves a valid store, drops no record or entry and adds entries only for its predicates |
| Inserts.ChainIsExact | db/transaction.go:342-350 | a predicate whose rollups are exact before the chain has exact entries after it, whatever else is rolled up, in whatever order and however often |
| Inserts.VisitedIff | db/transaction.go:342-350 | an insert rolls up the data set's predicates, their noted inverses and nothing else |
| Inserts.InsertKeeps | db/transaction.go:247-367 | an insert drops no name, triple, record or entry, and adds entries only for predicates it rolls up |
| Inserts.InsertRecords | db/transaction.go:342-350 | after an insert every predicate that it rolls up and that has pairs has a subject with a record, the data set's predicates among them |
| Inserts.InsertIsExact | db/transaction.go:342-350 | where a predicate loses no siblings, its objects have records and its entries are complete once the inverse edges are added, the insert ends with the exact closure of its stored pairs, and in both directions where nodes meet at ends only |
| Inserts.LoadedIsStored | db/insert.go:42-54 | after any run of inserts the names of every inserted triple have keys and its key triple is stored |
| Inserts.LoadedIsRecorded | db/insert.go:42-54 | and its predicate has a subject with an index record |
| Inserts.RunNames | db/transaction.go:382-399 | a run gives keys to exactly the names of the inserted triples, the predicates' also with a "+" |
| Inserts.FirstSubjectRecorded | db/transaction.go:501-514 | the first triple of a database, unless it declares an inverse, leaves an index record for its subject |
| Rows.PutAt | db/row.go:44-60 | writing a position changes that position only and makes the row long enough for it |
| Rows.PaddingInvisible | db/row.go:35-42 | a longer zeroed buffer reads the same |
| Rows.ZerosAreEmpty | db/row.go:14-18 | fresh bytes read as the empty key everywhere |
| Rows.Row.Grow | db/row.go:45-49 | a short content is moved to a zeroed longer buffer |
| Rows.RowPool.NewRow | db/row.go:20-22 | recycled or fresh, a new row shows no earlier row's bytes |
| Rows.RowPool.Release | db/row.go:30-33 | the row is empty and back in the pool, others untouched |
| Rows.RowPool.AddValue | db/row.go:44-51 | the row as a map changes at one position, other live rows do not change |
| Rows.RowPool.Copy | db/row.go:35-42 | a new row with the same values, all live rows unchanged |
| Relations.NewIsIndexed | db/relation.go:17-28 | a new relation is exactly indexed on its variables, at their list positions |
| Relations.AppendKeepsIndex | db/relation.go:48-57 | appending a row and noting it keeps a variable's index exact |
| Relations.Relation.Places | db/relation.go:22-26 | each name gets its place and an empty index |
| Relations.Relation.FastAnd | db/relation.go:80-88 | exactly the row numbers in every bitmap of a tuple |
| Relations.BitmapsAreTuples | db/relation.go:80-88 | a row number is in all bitmaps iff that row holds the tuple |
| Relations.Relation.AddTuple | db/relation.go:79-102 | a tuple some row holds is skipped, else one row is appended and indexed |
| Relations.Relation.Register | db/relation.go:31-36 | an unknown variable gets a free position and an empty index |
| Relations.Relation.Add1Value | db/relation.go:30-59 | the rows grow by exactly the new values, once each, and stay exactly indexed |
| Relations.Relation.AddValues | db/relation.go:61-160 | the same for pairs and triples of values |
| Relations.Relation.MergeRow | db/relation.go:192-199 | the inner row overwritten with every variable of the other row |
| Relations.Relation.Matches | db/relation.go:171-190 | exactly the other relation's rows that agree on the join variables; none without join variables |
| Relations.Relation.Join | db/relation.go:162-205 | the result rows come, one each, from exactly the agreeing pairs |
| Joins.JoinIsNatural | db/relation.go:162-205 | joining on all shared variables is the natural join and repeats nothing if neither side does |
| Joins.NaturalIffOnAllShared | db/relation.go:194-198 | the join is natural on all fully bound data iff it joins on every shared variable |
| Joins.OverwritesShared | db/relation.go:194-198 | two fully bound rows whose join overwrites the value of a shared variable that is not joined on |
| Planner.Overlap | db/dependency.go:113-123 | the number of matching variable pairs; positive iff a variable is shared |
| Planner.FindRoot | db/dependency.go:31-42 | the first term of one variable, else of two, else of three |
| Planner.MakeDependencyGraph | db/dependency.go:18-56 | the greedy order, or that there is no root, or that it never ends |
| Planner.OrderMeaning | db/dependency.go:18-56 | a finished order is a permutation, starts with fewest variables, and neighbours share a variable |
| Planner.FinishesIff | db/dependency.go:31-54 | ordering ends with a plan iff that plan starts with the first of the terms with the fewest variables, goes on with the first term left that shares a variable with the last one, and leaves none |
| Planner.StuckIff | db/dependency.go:45-54 | ordering never ends iff such choices come to a nonempty rest of which no term shares a variable with the last one |
| Planner.ChosenSplits | db/dependency.go:45-54 | the terms chosen and those left are all the terms, and the chosen ones are chained |
| Planner.NoRootIff | db/dependency.go:31-43 | there is no root iff no term has a variable |
| Planner.PairwiseSharingFinishes | db/dependency.go:45-54 | ordering ends when every two terms share a variable |
| Planner.CommonVariableFinishes | db/dependency.go:45-54 | in particular when a variable occurs in every term |
| Planner.ConnectedYetStuck | db/dependency.go:45-54 | four connected terms on which ordering never ends |
| Planner.FormQueryPlan | db/plan.go:24-142 | fails iff a term has no variable; otherwise the plan is the only list of operators that suit their terms: for all thirteen operators, which ends are variables and which of them earlier operators have placed, and for a filter which end is the parent |
| Planner.PlanFromIff | db/plan.go:47-135 | from any operators on, the planner gives a list of operators iff each suits its term and what was placed before it |
| Planner.NoPlanIff | db/plan.go:136-138 | it gives none iff a term has no variable |
| Planner.PlacedIff | db/plan.go:80-135 | it resolves only variables of earlier terms, and all of them iff each variable that an earlier term leaves behind is placed by another |
| Planner.ChainedFilters | db/plan.go:80-103 | in chained orders from a one-variable term with constant predicates it filters a term iff both its ends occur in earlier terms, and never scans |
| Planner.ScanForgets | db/plan.go:107-109 | two terms with a common subject that are both scanned |
| Planner.PlanReadyTerm | db/plan.go:47-135 | the operator of a term that is ready, and the variables resolved after it |
| Planner.PlanOrdered | db/plan.go:24-142 | an ordered query gets only the four one-sided operators, each its own |
| Planner.ChainedIsOrdered | db/dependency.go:45-54 | a chained order is ordered unless a term closes a cycle over resolved variables |
| Solutions.SolutionMore | db/db_api.go:387-396 | a solution of one more term solves the terms before and satisfies it |
| Solutions.JoinExtends | db/relation.go:162-205 | joining solutions with rows of a term, limited by the definitions, gives solutions with the term, and all of them if the searches are exact |
| Executor.Traverse | db/operators.go:45-48 | one evaluation in a direction, sound, and exact for evaluable paths |
| Executor.FilledHoldsTerm | db/operators.go:51-62 | a relation filled with tuples of a term holds its rows, once each |
| Executor.FirstTermDone | db/operators.go:50-53 | after the first term the rows are its solutions and the definition covers them |
| Executor.LaterTermDone | db/operators.go:54-63 | after a joined term the rows are the solutions so far and the definitions still cover them |
| Executor.QueryContext.constructor | db/context.go:31-52 | an empty relation over the query's variables meets the invariant for no terms |
| Executor.QueryContext.MarkJoined | db/context.go:78-85 | a name is noted once |
| Executor.QueryContext.DefineVariable | db/context.go:95-100 | a definition that has values is kept |
| Executor.QueryContext.RestrictToResolved | db/context.go:113-130 | intersects the new values with the variable's values, if it has any definition |
| Executor.QueryContext.UnionDefinitions | db/context.go:107-110 | the intersection becomes the definition |
| Executor.QueryContext.ResolveEnd | db/operators.go:37-114 | `resolveSubject` and `resolveObject`: an error iff the constant has no key, else solutions with one more term |
| Executor.QueryContext.CollectPairs | db/operators.go:322-338 | related pairs from the resolved values, within the far variable's values if it has any, and the values at their far ends; all such pairs if the searches are exact |
| Executor.QueryContext.ResolveFarEnd | db/operators.go:310-394 | `resolveSubjectFromVarObject` and `resolveObjectFromVarSubject`: solutions with one more term |
| Results.HashRowWithPos | db/util.go:33-39 | the hash of the selected tuple's bytes |
| Results.TupleBytesInjective | db/util.go:33-39 | two tuples hash the same bytes iff they are equal |
| Results.GetResults | db/context.go:154-187 | exactly the fully bound tuples whose hash no earlier row had, each once |
| Results.MissingIff | db/context.go:166-175 | a fully bound tuple is missing iff its first row follows a row with another tuple of the same hash |
| Results.ResultsAreFullTuples | db/context.go:154-187 | without collisions, exactly the fully bound tuples |
| Queries.RunOp | db/db_api.go:387-396 | one operator: fails iff a constant has no key, else extends the solutions |
| Queries.ExecuteQueryPlan | db/db_api.go:381-398 | runs through iff all constants have keys; then the rows are solutions of the basic graph pattern, without duplicates, and if the searches are exact all of them, covered by the definitions |
| Queries.RowsAreAnswers | db/context.go:154-187 | the projected rows are answers, all of them if the searches are exact, and every row is long enough to be hashed |
| Queries.GetQueryResults | db/db_api.go:331-379 | an error iff a constant has no key; else the results are fully bound answers as shown, none twice, and if the searches are exact every one that no other answer shares its hash with; a variable without a position shows the value at position zero |
| Unions.Expand | lang/ast/ast.go:222-237 | the nested loops build the branches of a group |
| Unions.ExpandMeaning | lang/ast/ast.go:222-237 | a group holds iff all triples of some branch hold; there is always a branch |
| Unions.BranchesAreWays | lang/ast/ast.go:222-237 | there is exactly one branch for each way to choose a union at every level, and its triples are those met on the way |
| Unions.ElaborateBranches | db/db_api.go:53-63 | WHERE terms and group hold iff some elaborated branch does |
| Unions.BuildersMean | lang/ast/ast.go:339-356 | union is disjunction, adding triples conjunction |
| Unions.MergeIsConjunction | lang/ast/ast.go:358-363 | merging is implied by the conjunction, and is it when at most one side has unions |
| Unions.MergeIffCovered | lang/ast/ast.go:358-363 | merging is the conjunction iff at most one side has unions or each side's union branches, with all own triples, contain a branch of the other's |
| Unions.MergeLosesUnions | lang/ast/ast.go:358-363 | a triple set that satisfies the merge of two unions but not both |
| Groups.JoinedTerms | db/db_api.go:53-63 | the solutions of two lists of triples together are the joins of their solutions |
| Groups.GroupIsBranches | lang/ast/ast.go:222-237 | expansion keeps the solutions of a group, with the variables they bind |
| Groups.WhereIsConjunctions | db/db_api.go:53-63 | the solutions of WHERE triples and group are those of the conjunctions that are run |
| Patterns.PopulateVars | lang/ast/ast.go:165-189 | every mentioned variable once |
| Patterns.MatchIffAnswer | db/db_api.go:53-63 | the query's matches are the answers of its branches taken together, an unbound variable being the zero key |
| Patterns.UnboundIsZero | db/context.go:166-179 | an answer without the zero key comes from a branch that binds all selected variables |
| Patterns.BranchIsRightIff | db/context.go:158-183 | a branch's results are answers of it iff it binds all selected variables or has no results |
| Patterns.UnionReportsAnother | db/context.go:158-183 | a union whose first branch reports its own variable's value for another one, which is no match |
| Patterns.RunBranch | db/db_api.go:71-97 | one branch: only what is reported for its own variables, none twice, and in the exact case all of it that is alone with its hash |
| Patterns.OnceMore | db/db_api.go:88-104 | appending a branch's rows keeps the count: a tuple occurs once for each branch that has it |
| Patterns.OneBranchOnce | db/db_api.go:98-104 | so a query of one conjunction returns no tuple twice |
| Patterns.TupleAnswered | db/db_api.go:40-105 | a tuple occurs at most as often as branches match it, if they bind what is selected, and at least as often if the searches are exact and it is alone with its hash |
| Patterns.RunQuery | db/db_api.go:40-105 | the union query end to end: fails iff a branch has a constant without a key; each tuple comes once for each branch that reports it, so results are matches if all branches bind what is selected; every match that is alone with its hash is a result if the searches are exact |
| Snapshots.ServesIffViewsAgree | db/snapshot.go:131-201 | a snapshot serves exactly the stored triples from both ends iff the three views agree |
| Snapshots.LookupIff | db/snapshot.go:131-142 | a query finds a key for a name iff the entity table has it and it is not the zero key |
| Snapshots.SnapshotIndexSound | db/snapshot.go:191-201 | every closure entry a snapshot shows is true, for every predicate whose URI read back is its own or unknown |
| Snapshots.ExactEntriesServe | db/snapshot.go:191-201 | entries that are exact of the stored triples are exact for queries, in either direction |
| Snapshots.EntryAnswers | db/traversal.go:354-361 | a query's search from a node with an entry finds what the entry lists and nothing else, true or not |
| Snapshots.RolledEntriesServe | db/transaction.go:489-583 | as every run of a rollup leaves the out-entries where no siblings are lost |
| Snapshots.PathsServe | db/snapshot.go:131-201 | a snapshot of views in step serves undiverted paths soundly in either direction, and exactly over known predicates, as far as the entries of their repeated steps are exact; single and optional steps need none |
| Shortfalls.TrueIffUndiverted | db/transaction.go:489-583 | every rollup of a predicate, on every valid store with given tables that starts with true entries, leaves only true entries iff the URI read back leads to its own key or to none |
| Shortfalls.CrossingSearch | db/transaction.go:493-527 | what the searches of a diverted rollup find on a store with three triples |
| Shortfalls.DivertedRollup | db/transaction.go:489-583 | a finished rollup of a diverted predicate whose subject ends up with an entry that no triple accounts for |
| Shortfalls.LiteralIsDiverted | db/transaction.go:493-527 | the literal "a:b" beside the name a#b: such a store and such a run |
| Shortfalls.LonePairAborts | db/transaction.go:528-532 | with one non-reflexive pair and no records every run aborts |
| Shortfalls.FirstTripleAborts | db/transaction.go:528-532 | so on a database with one triple, not reflexive, and no records |
| Shortfalls.ChainExample | db/transaction.go:528-538 | a chain of three nodes and a finished run after which the last does not know of the first |
| Databases.PathIsStored | db/db_api.go:331-379 | the graph a snapshot serves relates what the stored triples relate, names looked up in the entity table |
| Databases.TruthIsStored | db/db_api.go:331-379 | a triple pattern holds on a snapshot iff it holds of the stored triples |
| Databases.KnownIsNamed | db/snapshot.go:131-142 | the constants of all conjunctions are found iff the entity table names them |
| Databases.PlainIsServed | db/db_api.go:331-379 | ordered queries by single and optional steps over known predicates need no index |
| Databases.ServedIsAnswerable | db/db_api.go:331-379 | ordered queries that repeat only undiverted predicates can be answered soundly, and exactly where the entries used are exact |
| Databases.QueryStored | db/db_api.go:40-105 | on a database with its views in step, whatever rollups left in the index: an error iff a constant is not named; every result is a match over the stored triples if the branches bind what is selected, once for each branch at most; where the entries used are exact every match that is alone with its hash is a result |
| Databases.AskMeans | db/db_api.go:331-379 | the query for the objects of a name means the stored triples of the two names |
| Databases.Ask | db/db_api.go:40-105 | it fails iff the name has no key, and reports exactly the stored objects, once each, but for zero keys and shared hashes |
| Databases.InsertAndAsk | db/insert.go:42-54 | after any run of inserts of non-reflexive triples it reports the objects of all inserted triples, but for zero keys and shared hashes |

## Left out

- Files, leveldb, bleve, msgp encodings, commit across stores, and the cache of db/cache.go: stores are maps and committing is handing over their values.
- The murmur hash function is a parameter; salts are unbounded where the source wraps at 64 bits, and inserting demands that some salt leads to a free key (`Transactions.Roomy`), since the source searches forever otherwise.
- Errors, logging and timing beyond the branches modelled; allocation and I/O do not fail.
- Patterns.RunQuery: branches run one after the other in any order instead of in goroutines; prefixes are expanded already; results are keys, not the URIs read back for them. The selection is a given list, so the branches of a union under `SELECT *`, which select different variables, are not modelled; and a branch that does not bind what is selected must mention no variable in a later step of a path, since the row may be too short for it.
- Queries.GetQueryResults: terms whose order never ends or has no root are excluded, because the source hangs or dereferences nil on them; so are orders in which some term is not ready for its operator (`Planner.ReadyTerm`) and, for exactness, backward steps along paths that `reversePath` does not reverse.
- Executor.QueryContext.ResolveFarEnd: operators for variable predicates, three variables and two resolved ends are planned (`Planner.PlanTerm`) but not run; they overwrite shared variables or read definitions that were never filled, so exactness does not hold for them.
- Results.GetResults: every row must be as long as its selected slots, which `Queries.RowsAreAnswers` shows for query rows; reading stale bytes within a recycled buffer's capacity is not modelled, nor is the release of the rows afterwards.
- Relations.Relation.Join: rows are byte contents here; that pooled, aliased buffers behave like values is proved separately in `Rows`. The index of the joined relation is not rebuilt, as in the source, and nothing is claimed about it.
- Transactions.Transaction.GetPredicateByHash: the batch holds records by value; the source shares pointers, which differs only while a symmetric predicate's pairs are walked, and there both behaviours are allowed.
- Transactions.Transaction.RollupPredicate: exact closures are claimed only where every order leaves them (`OutClosures.OutExactIff`, `InClosures.InExactIff`), and from complete entries, because entries that are present are not extended (`OutClosures.PresentStays`). For a diverted predicate nothing is claimed about its entries (`Shortfalls.TrueIffUndiverted`).
- InClosures.InExactIff: the iff is for stores without entries of the predicate; from complete entries the condition is proved sufficient (`InClosures.InIsExact`).
- Traversal.GetObjectFromSubjectPred: exact only for paths whose predicates the store knows or whose unknown steps include a mandatory one (`Traversal.ExactIffKnownOrDead`); set semantics throughout, so the multiplicities of SPARQL bags are not modelled.
- Entities.WithPairMeaning: the nested maps of a predicate's record are maps to sets, as their innermost values are always zero; Go's nested loops over them are loops over pairs.
- The duplicate traversal in db/snapshot.go, `reversePathPattern` and the variable-predicate searches of db/traversal.go.
- Databases.Ask: names that begin with a question mark are variables in a query, so nothing is asked about triples that hold them; and a predicate without a nonzero key gives no results.
- Sorting and merging of results across databases, `queryToDOT`, text search, parsing of queries and RDF, HTTP, command line and configuration.
