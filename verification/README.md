# timongo: the document engine and its two stores

A Dafny model of a MongoDB-to-TiDB gateway, with proofs.  The gateway answers MongoDB
commands from a small document engine (filters, updates, sorting, projection,
aggregation) over one of two stores: a lock-protected map in memory, and a TiDB table per
collection.

- **Engine** (`Bson`, `Paths`, `Matching`, `Ordering`, `StableSort`, `Updates`,
  `PushWindow`, `Groups`, `Unwinding`, `Queries`, `Pipelines`, `PipelineExecution`, and
  what they promise in `PathLaws`, `FilterLaws`, `SortLaws`, `UpdateLaws`, `OperatorLaws`,
  `GroupLaws`, `ProjectionLaws`, `StageLaws`).  Go visits a map in arbitrary order, so every
  loop over a map takes its next key with `:|`, and its contract holds for every order.
  Where the order can be seen in the result, a relation (`Outcome`, `GroupsTo`,
  `EntryRuns`) says what the possible results are.
- **Stores** (`Keys`, `KeyLaws`, `Enumerations`, `Collections`, `MemoryStore`,
  `TidbStore`).  A collection is a map from document keys to documents.  The memory store
  visits it in arbitrary order; TiDB scans it in key order and reads one snapshot per
  request.  `Collections` holds the relations the two classes are proved against.
- **Theorems about the stores** (`Refinement`, `Invariants`, `Deletes`, `StoreLaws`,
  `UpsertLaws`, `Paging`, `SingleRequests`, `Interleaving`, `Schedules`, `Increments`,
  `Conflicts`, `LostUpdate`, `Batches`).  TiDB refines the memory store over whole runs; both keep
  their keys; pushdown, paging, delete counts, requests with several updates and
  concurrent updates and deletes are correct under stated conditions, most of them exact,
  and concrete cases show what happens without them.
- **Commands and codecs** (`Backends`, `FindAndModify`, `Coherence`, `Rename`, `Wire`).
  The compound commands are written once over a datatype with a case per store.

Numbers are exact: a float64 is a real, and an integer converts to it without rounding.
Text that the engine only compares (`fmt.Sprint` of floats, dates and composite values,
`%#v`, regular expressions, the shortest decimal of a double) is given by constants
without a value, so the theorems hold whatever it is.  The clock is a parameter.

Where the code and the design disagree the model follows the code.  The enterprise design
plans to execute the mutations of a write in one transaction
(docs/superpowers/specs/2026-05-19-timongo-enterprise-design.md:130); the updates and
deletes of the TiDB store have none, which is why `Interleaving` needs its conditions.

`dafny verify dfyconfig.toml` checks the whole project.

## Model

| member | source | states |
|---|---|---|
| Bson.CompareAgreesWithEqual | internal/mql/mql.go:810-836 | for any two values `compare` is antisymmetric, returns -1, 0 or 1, and returns 0 exactly when `equal` holds, also across classes |
| Bson.CompareTransitive | internal/mql/mql.go:817-836 | inside one class (numbers, or everything else) `compare` is transitive and a tie in a chain ties every link: a total preorder |
| Bson.CompareCyclesAcrossClasses | internal/mql/mql.go:817-836 | across classes it is no order: 9 < 10 < "5" < 9 |
| Bson.TruncatesTowardZero | internal/mql/mql.go:103-108 | a number used as a count is cut off towards zero |
| Bson.IntegersCompare | internal/mql/mql.go:810-863 | integers of all types, and doubles, compare and are equal as the numbers they are |
| Bson.TextCompares | internal/mql/mql.go:810-836 | strings compare as strings; a number, a boolean and nil equal exactly the string of their text |
| Bson.StrLessByFirstDifference | internal/mql/mql.go:828-833 | on strings the first different byte decides, or else the length |
| Ordering.ValueLessIsWeakOrder | internal/mql/mql.go:264-270 | the `$push` sort comparator, in either direction, is a strict weak order on each class |
| Ordering.DocLessIsWeakOrder | internal/mql/mql.go:663-671 | the document comparator of `sortDocs`, in either direction, is a strict weak order on the documents whose sort keys are in one class |
| StableSort.SortIsStable | internal/mql/mql.go:663-671 | the insertion sort the comparators are handed to orders its input, permutes it, and keeps ties in input order |
| StableSort.StableSortUnique | internal/mql/mql.go:663-671 | on a weak order any stable sort of the input is that one, so the choice of sorting algorithm cannot matter |
| StableSort.SortInPlace | internal/mql/mql.go:657-674 | sorting an array by adjacent swaps leaves the stable sort of its old contents |
| StableSort.FilterOfSort | internal/mql/mql.go:93-115 | filtering a sorted sequence is sorting the filtered one |
| StableSort.SortOrderIndependent | internal/mql/mql.go:657-674 | without ties, every permutation of the input sorts to the same sequence |
| SortLaws.SortedFindGoes | internal/mql/mql.go:657-674 | a find sorted by a field that holds numbers in every match, or strings in every match, answers them upwards, or downwards for a negative direction, for every skip and limit; without these it answers exactly the matches |
| SortLaws.PlainFindAnswersMatches | internal/backend/memory/memory.go:112-138 | a find without options answers exactly the documents that match, each as often as it is stored |
| SortLaws.SortStageGoes | internal/mql/mql.go:114-115 | the `$sort` stage goes the same way and keeps every document |
| SortLaws.NaturalKeepsOrder | internal/mql/mql.go:659-661 | `$natural` leaves the order alone |
| SortLaws.SortedPushGoes | internal/mql/mql.go:262-273 | `$push` with `$each` and `$sort` leaves all items, old and new, in that order |
| Paths.SplitIsInverseOfJoin | internal/mql/mql.go:590 | splitting a path at its dots and joining the parts gives the path back |
| Paths.ValueByPathLoop | internal/mql/mql.go:586-627 | the breadth-first walk over the frontier finds what the recursive reading of the path finds: same values, same order, arrays entered one level per part, one value unwrapped, several as an array |
| PathLaws.WholePathFirst | internal/mql/mql.go:587-589 | a field whose name is the whole path is found first |
| PathLaws.NestedPath | internal/mql/mql.go:590-599 | a path into a document under its first part finds what the rest of the path finds in that document |
| PathLaws.ArrayPath | internal/mql/mql.go:600-627 | a path into an array finds the field of its items that are documents with it, in order: nothing for none, the value for one, an array for more |
| PathLaws.NothingBehind | internal/mql/mql.go:595-620 | a path into a missing field, or into anything but a document or an array, finds nothing |
| PathLaws.FilterOnItems | internal/mql/mql.go:586-627 | when at least two items have the field, a filter on the path holds if and only if the field of some item equals the value or the array of them all does; when none has it, the filter fails |
| Matching.MatchesLoop | internal/mql/mql.go:22-58 | for every order in which the filter's entries are visited, and with its early returns, the evaluator computes the conjunction of the entries; it terminates on the structure of the filter |
| Matching.MatchesEntryLoop | internal/mql/mql.go:24-55 | one entry: `$and`, `$or` and `$nor` with their short circuits, the ignored keys, and a path with its condition |
| Matching.MatchValueLoop | internal/mql/mql.go:363-462 | a condition document is the conjunction of its operators in every visiting order; any other condition is equality on an existing field |
| Matching.AnyItemMatchesLoop | internal/mql/mql.go:430-441 | `$elemMatch` holds when some non-empty document item matches the nested filter |
| Matching.AndIsConjunction | internal/mql/mql.go:24-30 | `$and`, and a filter split over disjoint keys, mean the conjunction of the parts |
| Matching.NorNegatesOr | internal/mql/mql.go:31-47 | `$nor` is the exact negation of `$or` for every document and every list of alternatives |
| Matching.NotNegates | internal/mql/mql.go:442-445 | `$not` is the exact negation of its argument, also for a missing field |
| Matching.NeNegatesEq | internal/mql/mql.go:370-377 | `$ne` is the exact negation of `$eq`, also for a missing field |
| Matching.NinNegatesIn | internal/mql/mql.go:394-410 | `$nin` is the exact negation of `$in`, also for a missing field |
| Matching.InIsAnyEq | internal/mql/mql.go:394-404 | for an existing field `$in` is the disjunction of `$eq`s; a missing field is compared as nil, and so is in a list exactly when an item renders as nil does |
| Matching.RangeIsEquality | internal/mql/mql.go:382-393 | `$gte v` with `$lte v` on an existing field is equality with the value as a whole; it agrees with `$eq v` exactly when `$eq` does not hold through an array element alone, so always off arrays |
| FilterLaws.NumbersCompare | internal/mql/mql.go:370-393 | on numbers of any types `$gt`, `$gte`, `$lt`, `$lte`, `$eq` and `$ne` are the comparisons of the numbers |
| FilterLaws.StringsCompare | internal/mql/mql.go:370-393 | on strings they are the comparisons of the strings |
| FilterLaws.MissingField | internal/mql/mql.go:370-393 | a missing field meets none of them but `$ne` |
| FilterLaws.PlainCondition | internal/mql/mql.go:363-367 | a condition that is not a document holds if and only if the field exists and equals it, or is an array with an item that does |
| FilterLaws.ExistsDecides | internal/mql/mql.go:411-414 | `$exists` holds if and only if the field is there and the operand is true, or it is not and the operand is anything else |
| FilterLaws.SizeDecides | internal/mql/mql.go:426-429 | `$size` compares the number of items, zero for anything but an array |
| FilterLaws.AllDecides | internal/mql/mql.go:420-425 | `$all` holds if and only if every item of the operand equals some item of the field |
| FilterLaws.ModDecides | internal/mql/mql.go:446-450 | `$mod` by `d` holds if and only if division towards zero leaves the remainder `r`, with the sign of the dividend; never for `d` zero |
| FilterLaws.ModNeedsTwo | internal/mql/mql.go:446-450 | `$mod` without exactly two operands never holds |
| FilterLaws.TypeDecides | internal/mql/mql.go:772-797 | `$type` by name |
| FilterLaws.OtherTypeAccepts | internal/mql/mql.go:798-801 | any other type name accepts every value |
| FilterLaws.ElemMatchDecides | internal/mql/mql.go:430-441 | `$elemMatch` holds if and only if some item is a non-empty document that the nested filter matches |
| FilterLaws.RegexDecides | internal/mql/mql.go:415-419 | `$regex` matches the pattern of the operand against the text of the field |
| FilterLaws.OtherOperators | internal/mql/mql.go:455-459 | bit and geometry operators always hold, unknown ones never |
| FilterLaws.ConditionsConjoin | internal/mql/mql.go:368-461 | the operators of one condition all have to hold |
| FilterLaws.LogicDecides | internal/mql/mql.go:24-47 | `$or` needs one of its filters, `$and` all, `$nor` none |
| FilterLaws.IgnoredKeys | internal/mql/mql.go:48-49 | the empty filter and filters on ignored keys match every document |
| FilterLaws.SchemaDecides | internal/mql/mql.go:331-361 | a validator accepts exactly the documents that have the required fields and whose fields each meet the property of that name |
| FilterLaws.TypePropertyIsFilter | internal/mql/mql.go:356-358 | a `bsonType` property accepts what the `$type` filter accepts |
| FilterLaws.TypeListIsAny | internal/mql/mql.go:758-770 | a list of types accepts what one of them accepts |
| FilterLaws.EnumDecides | internal/mql/mql.go:353-355 | an `enum` property accepts the values that equal one of its items |
| Updates.LiveDocument.ApplyUpdate | internal/mql/mql.go:178-328 | mutating the document in any order of operators and fields fails exactly when the update holds an unsupported operator, whatever the document, and otherwise leaves one of the outcomes of the update |
| Updates.LiveDocument.Replace | internal/mql/mql.go:189-201 | a replacement leaves its own fields and the old `_id` unless it brings one |
| Updates.LiveDocument.ApplyOperator | internal/mql/mql.go:202-322 | all fields of one operator, in arbitrary order, each exactly once |
| Updates.UpdateConfluence | internal/mql/mql.go:202-327 | operators on pairwise disjoint fields (`$rename` touching source and target) have one outcome for every order of operators and fields, even interleaved across operators, and leave every other field alone |
| UpdateLaws.SetWithExactly | internal/mql/mql.go:202-327 | `$set` with any other operator but `$rename` on the same field has one outcome, for all map orders, if and only if that operator leaves the value set as it is |
| UpdateLaws.SetWithIncExactly | internal/mql/mql.go:205-212 | for `$set` with `$inc` that means: a double incremented by zero, or a non-number and the same operand |
| UpdateLaws.OverlapIsOrderDependent | internal/mql/mql.go:202-327 | so setting 5 and adding 1 can give 5 or 6 |
| Updates.OneFieldOutcome | internal/mql/mql.go:202-327 | an update with one operator on one field has exactly one outcome at a given time |
| Updates.UpdateKeepsId | internal/mql/mql.go:178-201 | an update that never names `_id`, as a field or as a rename target, keeps it; a replacement without `_id` keeps it too |
| UpdateLaws.IncsAddUp | internal/mql/mql.go:209-212 | two `$inc`s of a number add up, and an `$inc` is undone by its negative |
| UpdateLaws.FirstIncStores | internal/mql/mql.go:803-808 | `$inc` of a field that holds no number stores the operand unchanged |
| UpdateLaws.MinMaxBound | internal/mql/mql.go:217-228 | `$min` and `$max` leave a bound of the old value and the operand, and one of the two |
| UpdateLaws.PushAppendsExactly | internal/mql/mql.go:254-283 | `$push` appends its operand to whatever there is if and only if the operand is not a non-empty document |
| UpdateLaws.PopUndoesPush | internal/mql/mql.go:254-307 | `$pop` undoes `$push` of anything but a non-empty document |
| UpdateLaws.PushedDocumentIsLost | internal/mql/mql.go:257-261 | a pushed non-empty document without modifiers adds nothing |
| UpdateLaws.AddToSetAddsOnce | internal/mql/mql.go:246-253 | `$addToSet` keeps the items, makes the value one of them, keeps them free of equals and is idempotent |
| UpdateLaws.PullUndoesPush | internal/mql/mql.go:284-294 | `$pull` removes exactly the items that equal the value, so it forgets any push of it |
| UpdateLaws.RenameAndBack | internal/mql/mql.go:229-236 | renaming to a free name and back restores the document; renaming a field to itself deletes it |
| UpdateLaws.UnsetUndoesSet | internal/mql/mql.go:205-208 | `$unset` undoes `$set` of a new field |
| UpdateLaws.ReplaceTwice | internal/mql/mql.go:189-201 | two replacements in a row are the second one alone; `_id` survives both |
| OperatorLaws.StoringOperators | internal/mql/mql.go:205-208 | `$set` stores its operand, `$unset` removes the field, `$currentDate` stores the time of the update, and no other field changes |
| OperatorLaws.MulMultiplies | internal/mql/mql.go:213-216 | `$mul` multiplies, twice by both factors, by one to an equal number, and leaves 0.0 in a field that holds no number |
| OperatorLaws.MissingFieldStores | internal/mql/mql.go:209-228 | on a missing field `$inc`, `$min` and `$max` store their operand |
| OperatorLaws.MinMaxOfNumbers | internal/mql/mql.go:217-228 | on numbers `$min` and `$max` leave the smaller and the larger one |
| OperatorLaws.RenameMoves | internal/mql/mql.go:229-236 | `$rename` moves the value over whatever the new name held, and does nothing without the field |
| OperatorLaws.PopRemoves | internal/mql/mql.go:295-307 | `$pop` removes the first item for a negative operand, else the last, and nothing of no items |
| OperatorLaws.PushEachAppends | internal/mql/mql.go:254-261 | `$push` with `$each` appends every item in order |
| OperatorLaws.PushSliceKeeps | internal/mql/mql.go:274-283 | with `$slice` it keeps the first n items, or the last -n |
| OperatorLaws.AddToSetAppends | internal/mql/mql.go:246-253 | `$addToSet` appends the value unless an equal one is there |
| OperatorLaws.PullKeeps | internal/mql/mql.go:284-294 | `$pull` keeps the items that do not equal the value, in their order |
| OperatorLaws.ReplacementLeaves | internal/mql/mql.go:189-201 | a replacement leaves its own fields and of the old document at most the `_id`, exactly when it brings none and the old one is not nil |
| OperatorLaws.Refusal | internal/mql/mql.go:182-188 | an update is refused if and only if it has a key that starts with a dollar sign and a key that names no operator |
| Updates.UpdateClone | internal/backend/memory/memory.go:186-189 | updating a clone fails exactly when the update is unsupported, and otherwise gives one of its outcomes |
| PushWindow.SortedWindowKeepsTop | internal/mql/mql.go:254-283 | streaming top-n: after any run of `$push` with `$each`, one `$sort` direction and one `$slice`, at any clock readings, the field holds the first n, or for n < 0 the last -n, of the stable sort of everything ever pushed |
| PushWindow.WindowKeepsLast | internal/mql/mql.go:254-283 | without `$sort`, a negative `$slice` keeps the last -n of the push history |
| Groups.Group | internal/mql/mql.go:464-526 | feeding documents one by one into per-key states, visiting the specification, the operators of a field and the groups in arbitrary order, gives one document per group key, each field one that the members alone can produce; it fails exactly when there is a document and an accumulator is unsupported |
| Groups.FeedState | internal/mql/mql.go:479-514 | one document updates every output field of its group once, in any order of the fields and of the operators of a field |
| GroupLaws.ResultShowsOutcome | internal/mql/mql.go:479-524 | a field with one operator has one value: the fold of that operator over the group's values, for every map order |
| GroupLaws.OperatorsClash | internal/mql/mql.go:484-513 | a field with several operators shows the order they are visited in: `$sum` and `$push` of one value give a number or a list |
| GroupLaws.GroupsReport | internal/mql/mql.go:464-526 | whatever the map orders, the stage returns one document per group with the id of the group, and each field `{name: expr}` reports on all values of the group: `$sum` the sum, `$avg` the mean, `$min` and `$max` an attained bound within a class, `$push` the list in input order, `$addToSet` the distinct values |
| GroupLaws.RefusedOperators | internal/mql/mql.go:510-512 | a specification is refused if and only if it names any other operator |
| Groups.FinishState | internal/mql/mql.go:516-525 | every average is divided by its counter once |
| GroupLaws.GroupsPartition | internal/mql/mql.go:464-526 | the members of all groups together are the input: each document is in exactly one group |
| GroupLaws.GroupingConserves | internal/mql/mql.go:464-526 | any real-valued quantity added up group by group is the quantity added up over the input |
| GroupLaws.SumsConserved | internal/mql/mql.go:487-488 | a `$sum` column adds up to the sum over all inputs; with the constant 1 it counts every document once |
| GroupLaws.SumOfGroup | internal/mql/mql.go:487-488 | the `$sum` of a group is the sum over its members |
| GroupLaws.AverageTimesSize | internal/mql/mql.go:489-491 | `$avg` times the size of the group is the sum over its members |
| GroupLaws.ExtremesAreAttained | internal/mql/mql.go:492-499 | within one class `$min` and `$max` are bounds of the group's values and one of them |
| GroupLaws.PushListsValues | internal/mql/mql.go:500-503 | `$push` lists the group's values in input order |
| GroupLaws.AddToSetCovers | internal/mql/mql.go:504-509 | `$addToSet` covers every value of the group and holds no two equal entries |
| Unwinding.UnwindLoop | internal/mql/mql.go:713-734 | one document per array item, in order, for a string or a document specification; an empty path unwinds nothing |
| Unwinding.UnwindThenGroup | internal/mql/mql.go:464-526 | for distinct `_id` group keys, unwinding a field and pushing it back grouped by `$_id` rebuilds each non-empty array element for element in order, with no extra group |
| Queries.SortDocs | internal/mql/mql.go:657-674 | sorts by one entry of the sort document, the one the map iteration yields first, and not at all for `$natural` |
| Queries.IncludeFields | internal/mql/mql.go:548-566 | inclusion: the named paths that exist, and `_id` unless it is set to zero |
| Queries.ExcludeFields | internal/mql/mql.go:537-547 | exclusion: every field but those set to zero; a projection of only a non-zero `_id` takes this path |
| Queries.ProjectTwice | internal/mql/mql.go:528-569 | projecting twice is projecting once, for exclusions and for inclusions of top-level fields; no other field appears |
| Queries.OnlyIdKeepsEverything | internal/mql/mql.go:530-547 | a projection of only a non-zero `_id` keeps the whole document, and of only a zero `_id` drops just that |
| ProjectionLaws.ExclusionDrops | internal/mql/mql.go:537-547 | field by field: an exclusion drops the fields set to zero and nothing else |
| ProjectionLaws.InclusionKeeps | internal/mql/mql.go:548-566 | field by field: an inclusion keeps the paths set to something else than zero with the values found there, and `_id` unless it is set to zero |
| Queries.ApplyFindOptionsLoop | internal/mql/mql.go:61-81 | sort, skip, limit and projection in that order give the page of the sorted documents |
| Queries.FilterCommutesWithSort | internal/mql/mql.go:93-115 | within one class, filtering before or after sorting gives the same documents in the same order |
| Queries.PagesConcatenate | internal/mql/mql.go:67-76 | consecutive pages put together are a prefix of the whole result, and all of it once they reach its end |
| PipelineExecution.CompactInPlace | internal/mql/mql.go:93-101 | writing the matches to the front of the slice that is being read leaves exactly the matches, in order |
| PipelineExecution.ApplyStage | internal/mql/mql.go:90-163 | the entries of a stage document run in some order, each on the result of the one before, up to the first that fails |
| PipelineExecution.ApplyPipeline | internal/mql/mql.go:84-166 | the stages run in order, each on the result of the one before, up to the first that fails |
| Pipelines.PlanIsFind | internal/mql/mql.go:61-117 | for k >= 0 and n > 0 the pipeline `$match`, `$sort`, `$skip`, `$limit`, `$project` over a scan has exactly the outputs of find over the same scan, for every sort document |
| Pipelines.CountAfterMatch | internal/mql/mql.go:93-129 | `$match` then `$count` reports the number of documents a find with that filter returns |
| Pipelines.SortFirstPlanIsFind | internal/mql/mql.go:93-115 | swapping `$match` and `$sort` changes nothing when each possible sort key stays in one class |
| StageLaws.PathExpression | internal/mql/mql.go:571-575 | `"$path"` is the value found there, nil when there is none |
| StageLaws.DocumentExpression | internal/mql/mql.go:576-583 | a document expression is evaluated field by field |
| StageLaws.AddFieldsSets | internal/mql/mql.go:676-686 | `$addFields` and `$set` give each named field the value of its expression in the document as it was, and leave every other field alone |
| StageLaws.UnsetRemoves | internal/mql/mql.go:688-711 | `$unset` removes the named field, or the fields of a list, and no other |
| StageLaws.MatchKeeps | internal/mql/mql.go:93-101 | `$match` keeps the matching documents in their order |
| StageLaws.LimitSkipSplit | internal/mql/mql.go:102-113 | `$limit` and `$skip` of one number split the documents |
| StageLaws.NegativeBoundsPanic | internal/mql/mql.go:102-113 | a negative number is a slice bound below zero |
| StageLaws.SampleKeeps | internal/mql/mql.go:153-157 | `$sample` keeps that many documents from the start |
| StageLaws.CountCounts | internal/mql/mql.go:124-129 | `$count` counts under the given name, or under `count` |
| StageLaws.ReplaceRootGives | internal/mql/mql.go:143-152 | `$replaceRoot` replaces each document by the document its expression gives, in order, and drops the others |
| StageLaws.GroupIsOneId | internal/mql/mql.go:471-478 | a group is the documents whose id expression has one value, as its `%#v` text tells values apart, in input order; it exists if there is one |
| StageLaws.UnwindCopies | internal/mql/mql.go:724-733 | `$unwind` turns a document into one copy per item of the array, in order, with the item in its place |
| StageLaws.UnwindOneByOne | internal/mql/mql.go:724-733 | it does so document by document |
| StageLaws.UnwindNothing | internal/mql/mql.go:721-723 | without a path it leaves the documents alone |
| StageLaws.UnwindForms | internal/mql/mql.go:714-720 | `$unwind` takes its path as a string or in a document |
| StageLaws.SortByCountDescends | internal/mql/mql.go:136-142 | `$sortByCount` returns each value with the number of its documents, the largest numbers first |
| StageLaws.KnownStagesAnswer | internal/mql/mql.go:92-160 | every named stage but `$limit`, `$skip` and `$group` answers documents whatever its operand |
| StageLaws.OtherStages | internal/mql/mql.go:158-162 | `$planCacheStats` answers a constant; an unknown stage is refused |
| Keys.FormatIntInjective | internal/bsonutil/bsonutil.go:28-33 | decimal rendering is injective |
| Keys.HexInjective | internal/bsonutil/bsonutil.go:24-25 | hex rendering is injective |
| Keys.Base64Injective | internal/bsonutil/bsonutil.go:36-37 | the padded base64 of section 4 of RFC 4648 is injective |
| Keys.KeysIdentify | internal/bsonutil/bsonutil.go:22-41 | two supported values have the same key exactly when they are the same `_id`: same type, with `int` and `int64` as one, and same value |
| KeyLaws.IntReadsBack | internal/bsonutil/bsonutil.go:28-33 | the decimal text of an integer reads as the integer |
| KeyLaws.HexReadsBack | internal/bsonutil/bsonutil.go:24-25 | lower-case hex, high nibble first, reads as the bytes |
| KeyLaws.Base64ReadsBack | internal/bsonutil/bsonutil.go:36-37 | the padded base64 of section 4 of RFC 4648 reads as the bytes |
| KeyLaws.KeySaysValue | internal/bsonutil/bsonutil.go:22-41 | a key names the type of its value, and its text reads as the value |
| KeyLaws.HasKey | internal/bsonutil/bsonutil.go:12-41 | a document has a key if and only if it has an `_id` of a supported type |
| Collections.NoIdTwice | internal/bsonutil/bsonutil.go:12-19 | in a collection filed by key no `_id` occurs twice |
| Collections.ScanOrder | internal/backend/tidb/schema.go:23-38 | the primary-key order lists every key once, least first |
| Refinement.PushdownExact | internal/backend/tidb/store.go:520-573 | for an `_id` filter the pushed-down key lookup, with any limit, returns what scan, filter and limit return, if and only if no stored `_id` equals the value under another key |
| Refinement.PushdownMissesOtherTypes | internal/backend/tidb/store.go:526-534 | the condition can fail: with int32 1 and int64 1 stored, the lookup for int32 1 answers one document and the scan both |
| StoreLaws.OneTypeIsSafe | internal/backend/tidb/store.go:526-534 | it holds among strings, among int32s, among int64s, and among ObjectIDs if their `fmt.Sprint` texts differ |
| Refinement.PushedLimitCommutes | internal/backend/tidb/store.go:540-543 | for the empty filter the SQL LIMIT commutes with the filtering and post-processing done afterwards |
| Refinement.LimitedRows | internal/backend/tidb/store.go:540-543 | the SQL LIMIT bounds the rows read, the first ones in key order |
| Refinement.FindRefines | internal/backend/tidb/store.go:176-222 | every answer of a TiDB find is an answer the memory store can give; only a find answered by key lookup needs that no stored `_id` equals the value under another key |
| Refinement.UpdateRefines | internal/backend/tidb/store.go:256-305 | a successful update on TiDB that keeps the keys of the documents it writes, upsert included, is one the memory store can make: same table, same counters |
| Refinement.ReplacesRewrite | internal/backend/tidb/store.go:386-401 | replacing documents one by one, each keeping its key, rewrites exactly their rows, each once |
| Refinement.DeleteRefines | internal/backend/tidb/store.go:308-335 | a delete on TiDB succeeds and is one the memory store can make: same table, same count |
| Refinement.StepRefines | internal/backend/tidb/store.go:127-335 | every successful TiDB command whose update keeps the keys of what it writes, and whose find, if it is answered by key lookup, meets no equal `_id` under another key, is a memory-store command with the same result |
| Invariants.RunsRefine | internal/backend/tidb/store.go:127-335 | over whole runs of inserts, finds, counts, updates and deletes under the conditions of `StepRefines`: every TiDB run is a memory-store run with the same states and replies, and keeps every row under its own key |
| Batches.BatchInMemory | internal/backend/tidb/store.go:256-305 | a request of several updates, all on one snapshot, is one the memory store can make update by update, with the same table, counters and failure, when the updates are independent and keep keys |
| Batches.IncrementBatchExactly | internal/backend/tidb/store.go:262-281 | for two `$inc`s of all their matches in one request, of a field that neither filter reads, the first not by zero and the field a number where both match: that holds if and only if no document matches both |
| Invariants.TidbInvariant | internal/backend/tidb/store.go:147-166 | in every state of every TiDB run, whatever the requests and whether they succeed, each row is filed under the key of its document |
| Invariants.MemInvariant | internal/backend/memory/memory.go:172-215 | the same for the memory store in every state reached by updates that keep the keys of the documents they match; upserts may set any `_id` |
| StoreLaws.KeepsKeysExactly | internal/backend/memory/memory.go:172-195 | for a supported update that matches something, every answer of the memory store keeps each document under its own key if and only if the update keeps the key of every match |
| Invariants.IdSafeUpdatesKeepKeys | internal/backend/memory/memory.go:172-195 | updates that never name `_id` keep all keys, however many come before |
| Invariants.IdSafeKeepsKeys | internal/mql/mql.go:178-201 | an update that never names `_id` keeps the key of every document of a collection filed by key |
| StoreLaws.ReplacementKeepsKeys | internal/mql/mql.go:189-201 | so does a replacement that carries the `_id` of the one document it can match |
| StoreLaws.ChangedIdDiverges | internal/backend/memory/memory.go:190 | an update that changes `_id` leaves the memory store with a misfiled document and TiDB with two documents in place of one |
| StoreLaws.InsertExactly | internal/backend/memory/memory.go:92-108 | an insert succeeds exactly when every document validates and has a key that is neither taken nor given twice, and then adds exactly the documents |
| StoreLaws.RefusedInsertKeepsFirst | internal/backend/memory/memory.go:92-108 | a refused insert has added exactly the documents before the first that is not acceptable |
| StoreLaws.TidbInsertExactly | internal/backend/tidb/store.go:127-173 | on TiDB an insert adds all documents when all are acceptable, and none otherwise |
| StoreLaws.CountersAddUp | internal/backend/memory/memory.go:172-215 | the counters of a request are the sums of those of its updates |
| UpsertLaws.UpsertInMemory | internal/backend/memory/memory.go:196-211 | an upsert without a match writes one row, under its own key: what the update makes of the filter, with an `_id` generated only when that leaves none; it reports one document matched, modified and upserted, and its `_id` |
| UpsertLaws.UpsertOnTidb | internal/backend/tidb/store.go:288-302 | the same on TiDB |
| UpsertLaws.FilterFieldsStay | internal/backend/memory/memory.go:197-200 | the fields of the filter that no operator touches are in that row unchanged |
| UpsertLaws.FilterIdIsKey | internal/backend/memory/memory.go:201-209 | a filter that names an `_id`, with an update that does not, files the row under the key of that `_id` and reports it |
| UpsertLaws.GeneratedOnlyIfNone | internal/backend/memory/memory.go:201-203 | an `_id` is generated when neither the filter nor the update names one |
| UpsertLaws.ReplacementIsRow | internal/backend/memory/memory.go:197-200 | a replacement gives the row its fields, and the `_id` of the filter if it has none |
| StoreLaws.UpdateAtomicity | internal/backend/memory/memory.go:172-215 | a failing update changes nothing; an unsupported one fails exactly when there is something to apply it to; a supported one without upsert rewrites every match, or one of them, exactly once and no other document |
| Collections.FailureWritesNothing | internal/backend/memory/memory.go:180-190 | the loop writes each document at once and has no way back, yet an update that fails after writing some of its matches has written none: it can only fail at the first |
| Deletes.DeletedIsShrinkage | internal/backend/memory/memory.go:218-237 | the memory store reports exactly the drop in collection size, for any list of deletes and any map order |
| Deletes.MemKeepsUnmatched | internal/backend/memory/memory.go:218-237 | without limits the memory store keeps exactly the documents that match none of the deletes |
| Deletes.TidbKeepsUnmatched | internal/backend/tidb/store.go:308-335 | without limits TiDB keeps the same documents and reports the sum of the matches on its snapshot |
| Deletes.DeleteAccounting | internal/backend/tidb/store.go:308-335 | both stores leave the same documents, and report the same count if and only if no document matches two of the deletes |
| MemoryStore.Store.constructor | internal/backend/memory/memory.go:25-31 | an empty store |
| MemoryStore.Store.CreateCollection | internal/backend/memory/memory.go:34-49 | keeps the documents and replaces the options |
| MemoryStore.Store.DropCollection | internal/backend/memory/memory.go:72-81 | removes the documents and the options, and nothing else |
| MemoryStore.Store.Insert | internal/backend/memory/memory.go:84-109 | adds the documents up to the first refused one, and touches no other collection |
| MemoryStore.Store.Find | internal/backend/memory/memory.go:112-138 | the filtered documents of some visiting order, post-processed |
| MemoryStore.Store.Count | internal/backend/memory/memory.go:141-147 | the number of documents some find returns |
| MemoryStore.Store.Update | internal/backend/memory/memory.go:172-215 | the updates of the request one after the other, each seeing the ones before, up to the first that fails; no other collection changes |
| MemoryStore.Store.Delete | internal/backend/memory/memory.go:218-237 | the deletes one after the other with their running count; no other collection changes |
| MemoryStore.Store.Aggregate | internal/backend/memory/memory.go:240-250 | the pipeline over the whole collection in some visiting order |
| MemoryStore.UpdateCollection | internal/backend/memory/memory.go:178-213 | one update for every map order: each match once, or the first one met, or the upsert; on failure the collection is left as the loop wrote it |
| MemoryStore.DeleteFrom | internal/backend/memory/memory.go:224-235 | one delete for every map order: every match, or the first one met |
| TidbStore.Store.CreateCollection | internal/backend/tidb/store.go:53-79 | keeps the table and an earlier validator |
| TidbStore.Store.DropCollection | internal/backend/tidb/store.go:117-124 | removes the table and the catalog row, and nothing else |
| TidbStore.Store.Insert | internal/backend/tidb/store.go:127-173 | all documents or none; only the namespace's table changes |
| TidbStore.Store.Find | internal/backend/tidb/store.go:176-222 | the rows of the pushed-down query, filtered and post-processed again |
| TidbStore.Store.Update | internal/backend/tidb/store.go:256-305 | every update of the request works on one snapshot; its rows are replaced one by one under their new keys, and those written before a failure stay |
| TidbStore.Store.ReplaceDocument | internal/backend/tidb/store.go:386-401 | files the document under its own key, or changes nothing if it has none |
| TidbStore.Store.Delete | internal/backend/tidb/store.go:308-335 | every delete of the request works on one snapshot; rows go one by one by key, with the running count |
| TidbStore.Store.Aggregate | internal/backend/tidb/store.go:338-348 | the pipeline over the table in key order |
| TidbStore.TablesCollide | internal/backend/tidb/schema.go:12-21 | distinct namespaces can share a table |
| TidbStore.PlainNamesApart | internal/backend/tidb/schema.go:12-21 | namespaces over lower-case letters, digits and underscores, none in the database name or at the end of a non-empty collection name, share a table only if they are equal |
| TidbStore.PlainTable | internal/backend/tidb/schema.go:12-21 | the table of such a namespace is `tm_doc_`, the database, an underscore and the collection |
| TidbStore.TableNameIsIdentifier | internal/backend/tidb/schema.go:12-21 | every table name is a non-empty word of lower-case letters, digits and underscores |
| Interleaving.InterleavingsAreSerial | internal/backend/tidb/store.go:256-335 | any number of concurrent updates and deletes, under any schedule of their snapshot reads and single-row writes, end in the table and the answers of running them one at a time, in every order, on TiDB and on the memory store alike, when they write different documents, keep keys, upserts find a match, and no write brings a document under the filter of another, nor takes one away from it unless that one takes only its first match |
| SingleRequests.RewriteReplaces | internal/backend/tidb/store.go:386-401 | writing rows one by one under their own keys reaches every table in which exactly those rows are updated (the converse of `ReplacesRewrite`) |
| SingleRequests.FailsInMemory | internal/backend/tidb/store.go:269-281 | a key-keeping update that fails on TiDB fails before its first write, and on the memory store too |
| Interleaving.SerialInMemory | internal/backend/memory/memory.go:172-237 | a serial run of key-keeping updates, upserts included, and deletes on TiDB is a run of the memory store, which holds its lock throughout each request |
| LostUpdate.UpdatesCanBeLost | internal/backend/tidb/store.go:262-281 | two concurrent increments of one counter can end at 1, which no serial order reaches |
| LostUpdate.SerialCountsTwice | internal/backend/tidb/store.go:262-281 | one at a time, in any order, both increments count |
| Increments.IncrementsSerialExactly | internal/backend/tidb/store.go:262-281 | for two concurrent `$inc`s of a field that neither filter reads, the first not by zero and the field a number where both match: every finished schedule has a serial order if and only if they write different documents |
| Increments.AvoidingIgnores | internal/mql/mql.go:22-58 | a filter none of whose paths, at any depth of `$and`, `$or` and `$nor`, is the field or starts at it does not read the field: it matches the same documents whatever the field holds |
| LostUpdate.DeletesCanBeUndone | internal/backend/tidb/store.go:275-330 | an update that read a document before a concurrent delete removes it brings it back, although the delete answers that it removed it |
| Conflicts.UpdateDeleteSerialExactly | internal/backend/tidb/store.go:256-335 | for a concurrent update and delete, when the update is supported, keeps the keys of its matches, does not upsert and brings no document under the filter of the delete: every finished schedule has a serial order if and only if the two write different documents |
| Conflicts.SharedKeySurvives | internal/backend/tidb/store.go:275-330 | without the condition on the filter of the delete: if the two write one document, some schedule leaves it in the table with answers no serial order gives |
| Conflicts.DeletesSerialExactly | internal/backend/tidb/store.go:308-335 | for two concurrent deletes every finished schedule has a serial order if and only if they take different documents; a shared one is counted by both |
| LostUpdate.SerialClears | internal/backend/tidb/store.go:256-335 | one at a time, in either order, a delete of everything leaves nothing |
| Paging.OrderShowsThroughTies | internal/backend/memory/memory.go:112-138 | within one class a sorted find has one answer for all map orders if and only if no two matching documents tie on the sort key; then the same holds for every skip and limit |
| Paging.PagesFit | internal/backend/memory/memory.go:121-137 | without ties, pages fetched one by one, each with its own map order, concatenate to the whole sorted result, a permutation of the matches: nothing lost or repeated |
| Paging.TidbPagesFit | internal/backend/tidb/store.go:176-222 | on TiDB, with its fixed scan order and any fixed sorting function, stable or not, pages fit together also across ties and classes: they are a prefix of the unpaged answer |
| Paging.SortIsASorter | internal/mql/mql.go:657-674 | the finds of the store are those that sort with the stable sort |
| Paging.AggregateIsFind | internal/backend/memory/memory.go:240-250 | over the memory store an aggregation with the find plan has exactly the answers of the find |
| FindAndModify.FindAndModify | internal/handler/handler.go:242-289 | the find, the update or delete, and the second find for `new`, on either store, with every error return |
| FindAndModify.TidbFinds | internal/backend/tidb/store.go:176-222 | the find for one document on TiDB is refused when the `_id` of the query has no key, answers the key looked up if its document matches, and without a lookup answers the least match |
| FindAndModify.TidbAnswers | internal/handler/handler.go:248-288 | on TiDB, for an update that keeps the key of the least match, that match and nothing else is changed, and the answer is the document found before, or with `new` the one found after if there is one |
| FindAndModify.TidbUpserts | internal/handler/handler.go:266-288 | on TiDB, when nothing matches, an upsert files the one document it creates and any other update changes nothing; the answer counts no document and is null, or with `new` the document found afterwards if there is one |
| FindAndModify.TidbCoherent | internal/handler/handler.go:248-288 | when the find finds the least match, the document returned is the one the update changes; with `new` the reply is what it became if that still matches, else the next match unless the find is a lookup, else the document as it was |
| FindAndModify.TidbRemoves | internal/handler/handler.go:256-264 | on TiDB `remove` answers the document the find finds and removes the least match; when the find finds nothing nothing is removed |
| Coherence.TidbRemovesExactly | internal/handler/handler.go:256-264 | so on TiDB the document returned is the one removed if and only if the find is refused, finds nothing, or finds the least match |
| Coherence.LongFindsIntRemoved | internal/handler/handler.go:256-264 | with int32 1 and int64 1 stored, `remove` for int64 1 returns that document and removes the other |
| FindAndModify.SafeFindsLeast | internal/backend/tidb/store.go:520-573 | the find finds the least match whenever no stored `_id` equals the value looked up under another key |
| FindAndModify.MemoryCoherent | internal/handler/handler.go:266-288 | on the memory store the same holds when exactly one document matches |
| FindAndModify.MemoryRemoves | internal/handler/handler.go:256-264 | on the memory store `remove` returns the document it removes, for all map orders, if and only if at most one document matches |
| Coherence.MemoryChangesExactly | internal/handler/handler.go:248-288 | on the memory store an update returns the document it changes, for all map orders, if and only if at most one document matches, the update is refused, or it leaves every match as it is; otherwise it can return one match and change another |
| Coherence.TidbChangesExactly | internal/handler/handler.go:248-288 | on TiDB, for any query and an update that keeps the key of the least match, the document returned is the one changed if and only if nothing matches, the find or the update is refused, the find finds the least match, or it finds another and the least match stays as it is |
| Coherence.LongFindsIntChanges | internal/handler/handler.go:248-288 | with int32 1 and int64 1 stored, findAndModify for int64 1 returns that document and changes the other |
| Rename.RenameCollection | internal/handler/handler.go:412-440 | the sequence of store calls, on either store, with the state after each of them |
| Rename.RenameLosesNothing | internal/handler/handler.go:412-440 | between different locations every source document is, in every state, in the source or in the target; the rename succeeds exactly when the target can take all of them, then the target holds them beside what it kept and the source is gone; a failed one leaves the source as it was |
| Rename.RenameOntoItself | internal/handler/handler.go:423-438 | onto its own location, also through a shared table, a rename that drops its target reports success and leaves nothing; otherwise it fails and changes nothing, unless there was nothing to rename |
| Rename.InsertAllFound | internal/handler/handler.go:431-434 | inserting the documents found copies a collection exactly when no key is taken and all validate |
| Backends.Insert | internal/backend/backend.go:14 | on a refused insert the memory store keeps the first documents and TiDB none; no other location changes |
| Backends.CreateCollection | internal/backend/backend.go:11 | keeps the documents; the memory store forgets an earlier validator, TiDB keeps it |
| Backends.MemoryNamespacesApart | internal/backend/memory/memory.go:34-49 | in memory, database names without a dot keep namespaces apart |
| Wire.ToBSOND | internal/wire/server.go:226-241 | for every map order the ordered document has each key once, its present ones of ok, errmsg, code and cursor first in that order, and the converted value of each |
| Wire.ToDriverValue | internal/wire/server.go:243-256 | maps become ordered documents and arrays are converted item by item; everything else is kept |
| Wire.NormalizeDriverDoc | internal/wire/server.go:258-283 | an ordered document becomes a map in which the last of equal keys wins; anything but a document is an error |
| Wire.NormalizeDriverValue | internal/wire/server.go:285-312 | nested ordered documents and arrays are converted; nested maps are kept unvisited |
| Wire.DocRoundTrip | internal/wire/server.go:226-312 | converting a document to the driver and back never fails, and gives it back if and only if no ordered document or plain slice is reachable in it through maps and arrays, for every map order |
| Wire.ValueRoundTrip | internal/wire/server.go:243-256 | the same for every nested value |
| Wire.RepliesStartWithStatus | internal/wire/server.go:226-241 | ok, errmsg, code and cursor come before all other keys, in this order |
| Wire.LastElementCounts | internal/wire/server.go:258-283 | of elements with one key the last counts, with its value converted |
| Wire.ConvertedKinds | internal/wire/server.go:285-312 | arrays and plain slices become arrays item by item, a map inside a value is kept unvisited, and only documents convert at the top |
| Wire.TopMapIsVisited | internal/wire/server.go:258-283 | at the top the values of a map are converted |

## Left out

- Sockets, message framing, BSON decoding, and the document sequences of OP_MSG.
- Rounding, overflow to infinity, negative zero and NaN of float64, and float32; conversions of floats to integers are truncation without a width.
- Integer widths: `int32` and `int64` values are unbounded; the engine adds and multiplies in float64 only.
- `$bit`: its 32-bit arithmetic is a constant without a value.
- `[]any`, `[]bson.M`, `map[string]any` and `bson.D` inside the engine: values there are `bson.M` and `bson.A` (the wire module tells them apart).
- Slice aliasing: documents are cloned shallowly, so a `$push` after a `$pop` can write into an array an earlier result still holds. Values are immutable here, and nothing is claimed about results that were returned before.
- StableSort.SortInPlace: models the insertion sort that Go runs on short slices; for longer ones the result is the same on a weak order (`StableSortUnique`), and what `sort.SliceStable` does with keys from several classes is not modelled.
- Updates.LiveDocument.ApplyUpdate: says nothing about the document a failing update leaves half changed, because both stores drop that clone; `$currentDate` takes one reading of the clock per update.
- Keys.KeysIdentify: two doubles count as the same `_id` when their shortest decimal texts are equal.
- FindAndModify.TidbAnswers: covers updates that keep the key of the least match; on the memory store an upsert by findAndModify is only described by the protocol.
- FindAndModify.FindAndModify: takes its arguments decoded; missing and mistyped command fields are not modelled.
- Rename.RenameCollection: takes its namespaces split; `splitNamespace` is not modelled.
- Interleaving.InterleavingsAreSerial: concurrent inserts, upserts that insert, and updates that change the key of a document are not covered; the steps of an inserting upsert are modelled.
- TidbStore.Store.Find: SQL always succeeds, returns rows in key order, and a stored document reads back equal; DDL, Extended JSON, the length limit of `id_key` and the catalog's JSON are not modelled.
- DropDatabase, ListCollections, Distinct, indexes and their metadata, and the administrative commands that answer constants.
- Configuration, status, packaging, topology splitting and scripts.
