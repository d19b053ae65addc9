# A verified model of tinyorm

tinyorm is an object-relational mapper for MySQL. This project models, in Dafny, the parts of it whose
correctness is hard to see from the code, and proves what those parts are for:

- **JSON diff, patch and merge patch** of the bundled JSON library: a patch changes a document operation by
  operation (the document is a value: a place in it is reached by following the pointer down and changed
  by rebuilding the values on the way back up); a diff is computed recursively, with removals of array
  elements in reverse order; a value is torn down with an explicit stack.
- **Schema migration**: the planner compares the previous and the current metadata of a table, collects
  commands, sorts them by priority alone, and runs them. Every claim holds for every order that the sort
  may leave, and for any table the migration may meet, whether or not the metadata describe it.
- **The snapshot file** that keeps the previous metadata: byte encoders, an appending writer, and a
  reader that is a state machine and skips the records of other models.
- **The connection pool** and its handles, once as a protocol of atomic steps of any number of threads, and
  once as the classes whose methods take those steps.
- **Names and tags**: the conversion between variable names and column names, and the tag text that the
  generator prints and a model class parses.
- **The insertion-ordered map** of the JSON library, which is shifted in place, and the **batch INSERT**
  statement with its placeholders and bindings.

`dafny verify dfyconfig.toml` checks everything.

## How the model is laid out

| files | what they hold |
|---|---|
| JsonValue, JsonEquality, JsonPointer, JsonPatch, JsonPatchLaws, JsonOutcomes, JsonDiff, JsonDiffContent, JsonMerge, JsonTeardown | the JSON part |
| Schema, Migration | metadata and its comparison, the planner and the commands |
| MigrationRun, MigrationProof, MigrationMeaning | the table in the middle and at the end of a run, and what a migration achieves |
| MigrationChain, MigrationExamples | one migration after the other, and migrations that go wrong |
| ByteArrays, Snapshot, SnapshotFile, SnapshotReader, SnapshotProof | the snapshot file and its round trips |
| PoolProtocol, PoolOutcomes, ConnectionPools | the pool |
| Text, Naming, Tags, TagParts, TagProof, TagMeaning | text handling, names, tags |
| Generator | a model generated from a table meets that table again |
| OrderedMap, BatchInsert | the ordered map and the batch INSERT |
| Basics | what several parts share |

Code that changes things in place is a class or a method, proved equal to a function of the old state;
the laws are then lemmas about that function. Some choices need a word:

- A JSON object is a map that is visited in the order of its keys, as `std::map` does. Integers, unsigned
  integers and floating-point numbers are separate kinds that compare equal across kinds as the code does,
  so the target of a diff is reached up to that comparison, and exactly when it holds no numbers. What the
  comparison means is proved place by place, and for numbers by their values.
- A pointer is a sequence of tokens. Evaluation follows section 4 of RFC 6901; the application of the
  operations follows section 4 of RFC 6902 as the code has it, including a "remove" whose parent is
  neither array nor object and does nothing.
- A patch stops at the first failure and keeps what was done before it. A failing "move" may already have
  removed its source.
- The database is a table with columns and indexes. A command that the database would reject changes
  nothing and the run goes on, since the program ignores the result of each statement. Rejected are
  commands whose names do not fit the table, and those whose text is not well-formed: a primary key that
  is added, a column name with a blank or a comma, and a column whose extra text runs into the word in
  front of it.
- An index may keep several columns as one text, as the macro `add_index` does
  (tinyorm/reflection.h:128-137). The database sees the names in the text, and the table holds these.
- The path of `isSame` that has no return statement (tinyorm/naming.h:92-103) is read as false.
- Of the pool's wait only its effect is modelled: the lock is dropped and other threads may act. Nothing
  ever notifies the condition variable, so every wait runs to its time limit.

## What the code does not do

- A migration does not always reach the new model; `MigrationCorrect` gives the condition, and
  `InStepOutcome` what is left of it when the snapshot describes the table. It fails when
  - a table has neither its new nor its default name, since it is always renamed from the default name
    (tinyorm/model.h:625; `UnknownNameExample`);
  - a name that one variable gives up is taken by another one (tinyorm/model.h:627-658; `ClashExample`);
  - a new variable gets the column name of one that was removed earlier and had another type, because
    columns are never dropped (tinyorm/model.h:627-650; `ReaddedColumnExample`);
  - a primary key is added or changed, because the statement lacks a bracket
    (tinyorm/model.h:236-243; `KeyExample`);
  - a column has extra text, and nothing separates it from the type or from the default value in front of
    it (tinyorm/model.h:210-215; `GluedExample`).
- CREATE TABLE leaves out the extra text of a column (tinyorm/model.h:161-200), so a new table matches its
  model only when no column has any; see `CreationCorrect` and `CreationExample`.
- The comparison of indexes (tinyorm/datatype.h:77-89) compares sizes of sets. It is equality up to order
  only for indexes without repeated columns; an index with a repeated column differs from itself, so
  planning again right after saving is a no-op exactly for models without such an index.
- Not every column that the generator prints comes back from its tags. `TagRoundTrip` gives the exact
  condition; among the columns it shuts out are those with a comma in their type, such as `decimal(10,2)`,
  with a capital in their extra text, such as `on update CURRENT_TIMESTAMP`, and with a name of one
  character, which `strip` loses (tinyorm/mysql4cpp/common.cpp:11-14).
- An `add_index` with several columns never compares equal to the index the database has, so without a
  snapshot it is dropped and added again at every start (tinyorm/model.h:660-671; `ListedReplanned`).
  `GeneratedPlansNothing` says when a generated model plans nothing against its own table.
- A handle that is dropped without `close` keeps its place in the pool for good (tinyorm/mysql4cpp/sqlconn.cpp:26-45).
  `ServesUnlessLost` says that the pool can serve exactly as long as not all places are lost this way;
  `DroppedExample` is a run that ends with every request refused.

## Model

| member | source | states |
|---|---|---|
| JsonValue.EqualReflexive | tinyorm/json-3.11.2/include/nlohmann/json.hpp:3572-3641 | every JSON value compares equal to itself, through arrays and objects |
| JsonEquality.EqualPlaceByPlace | tinyorm/json-3.11.2/include/nlohmann/json.hpp:3572-3641 | two values compare equal if and only if every pointer can be followed in both or in neither, and where it can it finds arrays of one length, objects with one key set, equal numbers, or the same other value |
| JsonEquality.NumberFreeEqual | tinyorm/json-3.11.2/include/nlohmann/json.hpp:3572-3641 | when one of the values holds no numbers, they compare equal if and only if they are the same value |
| JsonEquality.NumbersEqual | tinyorm/json-3.11.2/include/nlohmann/json.hpp:3612-3635 | numbers of any kinds that a double holds exactly compare equal if and only if they are the same number |
| JsonEquality.UnsignedEqual | tinyorm/json-3.11.2/include/nlohmann/json.hpp:3628-3635 | an unsigned and a signed integer compare equal if and only if they have the same 64 bits |
| JsonEquality.RoundedEqual | tinyorm/json-3.11.2/include/nlohmann/json.hpp:3612-3627 | beyond 53 bits an integer equals the nearest floating-point number, the even one from the middle |
| JsonEquality.NotTransitive | tinyorm/json-3.11.2/include/nlohmann/json.hpp:3612-3627 | for three numbers of mixed kinds the comparison does not carry over |
| JsonValue.SortedKeysIncrease | tinyorm/json-3.11.2/include/nlohmann/json.hpp:5020-5054 | the members of an object are visited in increasing order of their keys, each key once |
| JsonPointer.IndexRoundTrip | tinyorm/json-3.11.2/include/nlohmann/json.hpp:4980-4997 | an index printed into a path by diff is read back as the same index by patch, and is never the append token |
| JsonPointer.IndexUnique | tinyorm/json-3.11.2/include/nlohmann/json.hpp:4746-4751 | a token that is read as an index is the printed form of that index |
| JsonPointer.SetChildFrame | tinyorm/json-3.11.2/include/nlohmann/json.hpp:4721-4725 | changing a child through a reference changes nothing beside it: same key set, same array length, same siblings |
| JsonPatch.Document.Follow | tinyorm/json-3.11.2/include/nlohmann/json.hpp:4725-4725 | following a pointer token by token gives every value on the way, or the error of the first token that fails |
| JsonPatch.Document.Store | tinyorm/json-3.11.2/include/nlohmann/json.hpp:4865-4869 | writing at the place that was reached changes the document exactly there |
| JsonPatch.EditByAssign | tinyorm/json-3.11.2/include/nlohmann/json.hpp:4721-4770 | an edit deep inside is the edit of the value there, written back |
| JsonPatch.Document.OperationAdd | tinyorm/json-3.11.2/include/nlohmann/json.hpp:4705-4770 | the document becomes the one that "add" specifies, or stays as it was with the specified error; checking the top token first makes no difference |
| JsonPatch.Document.OperationRemove | tinyorm/json-3.11.2/include/nlohmann/json.hpp:4773-4799 | the document becomes the one that "remove" specifies, or stays as it was with the specified error |
| JsonPatch.Document.Apply | tinyorm/json-3.11.2/include/nlohmann/json.hpp:4850-4933 | each of the six operations has its specified outcome, with the document that a failure leaves behind |
| JsonPatch.Document.PatchInplace | tinyorm/json-3.11.2/include/nlohmann/json.hpp:4668-4935 | the loop is the sequential run of the operations up to the first failure, which keeps the operations before it |
| JsonPatch.Document.Patch | tinyorm/json-3.11.2/include/nlohmann/json.hpp:4939-4944 | the same on a copy: the original is unchanged and a failure gives no document |
| JsonPatch.RunConcat | tinyorm/json-3.11.2/include/nlohmann/json.hpp:4808-4934 | a patch made of two parts acts as the first and then, unless that failed, as the second |
| JsonOutcomes.TestOutcome | tinyorm/json-3.11.2/include/nlohmann/json.hpp:4903-4924 | a test passes if and only if the place exists and holds an equal value, and it changes nothing |
| JsonOutcomes.AddThenTest | tinyorm/json-3.11.2/include/nlohmann/json.hpp:4850-4924 | after an addition, a test at the same place passes if and only if its value equals the one added |
| JsonOutcomes.GuardedPatch | tinyorm/json-3.11.2/include/nlohmann/json.hpp:4903-4934 | a patch that starts with a test is the rest of it when the test passes, and otherwise fails with the document unchanged, with error 501 whenever the value differs or is out of range |
| JsonOutcomes.AddOutcome | tinyorm/json-3.11.2/include/nlohmann/json.hpp:4705-4770 | "add" succeeds if and only if it is at the root or its parent exists and is null, an object, or an array with "-" or an index up to its size |
| JsonOutcomes.AddReads | tinyorm/json-3.11.2/include/nlohmann/json.hpp:4727-4757 | afterwards the value is at its place, and of the parent only that member is new or written over, or the later elements have moved by one |
| JsonOutcomes.RemoveOutcome | tinyorm/json-3.11.2/include/nlohmann/json.hpp:4773-4799 | "remove" succeeds if and only if the parent exists and has the child, or is no container |
| JsonOutcomes.RemoveReads | tinyorm/json-3.11.2/include/nlohmann/json.hpp:4780-4798 | afterwards only that member or element is gone, and a parent that is no container is unchanged |
| JsonOutcomes.ReplaceOutcome | tinyorm/json-3.11.2/include/nlohmann/json.hpp:4864-4869 | "replace" succeeds if and only if the place exists, the root included, and the value is found there |
| JsonOutcomes.CopyIsAdd | tinyorm/json-3.11.2/include/nlohmann/json.hpp:4888-4901 | "copy" is "add" of the value at its source, and fails where there is none |
| JsonOutcomes.FailedMoveRemoves | tinyorm/json-3.11.2/include/nlohmann/json.hpp:4871-4886 | a move whose addition fails has removed its source |
| JsonPatchLaws.StepUnder | tinyorm/json-3.11.2/include/nlohmann/json.hpp:4705-4799 | one operation whose pointers go through an existing child acts on that child as the stripped operation acts on the child alone, in success and in failure |
| JsonPatchLaws.Locality | tinyorm/json-3.11.2/include/nlohmann/json.hpp:4808-4934 | the same for whole patches: the outcome is the document with that child replaced by the child's own outcome, with the same status |
| JsonPatchLaws.DeepLocality | tinyorm/json-3.11.2/include/nlohmann/json.hpp:4808-4934 | the same for a prefix of any length that denotes an existing value |
| JsonPatchLaws.EditTwice | tinyorm/json-3.11.2/include/nlohmann/json.hpp:4722-4725 | two changes at one place, however deep, compose into the two changes of the value there |
| JsonPatchLaws.AddThenRemove | tinyorm/json-3.11.2/include/nlohmann/json.hpp:4705-4799 | "add" at an absent key or an index in range and then "remove" at the same pointer restores the document |
| JsonPatchLaws.RemoveThenAdd | tinyorm/json-3.11.2/include/nlohmann/json.hpp:4705-4799 | "remove" of an existing value and then "add" of that value restores the document |
| JsonPatchLaws.ReplaceIsRemoveThenAdd | tinyorm/json-3.11.2/include/nlohmann/json.hpp:4864-4869 | "replace" of an existing value equals "remove" followed by "add", and the new value is found there (section 4.3 of RFC 6902) |
| JsonPatchLaws.MoveIsRemoveThenAdd | tinyorm/json-3.11.2/include/nlohmann/json.hpp:4871-4886 | "move" equals "remove" of the source followed by "add" of the value that stood there, failures included |
| JsonPatchLaws.MoveToItself | tinyorm/json-3.11.2/include/nlohmann/json.hpp:4871-4886 | moving a value onto its own place changes nothing |
| JsonPatchLaws.CopyThenRemove | tinyorm/json-3.11.2/include/nlohmann/json.hpp:4888-4924 | a copied value is found and passes "test" at its new place, and removing it restores the document |
| JsonDiff.ComputeDiff | tinyorm/json-3.11.2/include/nlohmann/json.hpp:4949-5079 | the recursion with absolute paths computes the difference of the two values, each of its pointers below the path |
| JsonDiff.DiffArrays | tinyorm/json-3.11.2/include/nlohmann/json.hpp:4973-5015 | the three loops give the changes of common elements, then removals from the last index down, then appends |
| JsonDiff.DiffObjects | tinyorm/json-3.11.2/include/nlohmann/json.hpp:5017-5057 | the two loops give changes and removals of the source's members, then the additions |
| JsonDiff.DiffPatch | tinyorm/json-3.11.2/include/nlohmann/json.hpp:4949-5079 | for all values s and t, running diff(s, t) on s raises no error and gives a value equal to t |
| JsonDiff.DiffPatchInside | tinyorm/json-3.11.2/include/nlohmann/json.hpp:4949-5079 | a difference computed for a value inside a document, lifted to its place, turns that value into the target and changes nothing else |
| JsonDiff.EmptyDiff | tinyorm/json-3.11.2/include/nlohmann/json.hpp:4955-4969 | diff(s, t) is empty if and only if s == t |
| JsonDiff.DiffInside | tinyorm/json-3.11.2/include/nlohmann/json.hpp:4949-5079 | a difference never adds or removes the root it was computed for, so it can be lifted |
| JsonDiffContent.DiffPatchExact | tinyorm/json-3.11.2/include/nlohmann/json.hpp:4949-5079 | when the target holds no numbers, patching by the difference gives exactly the target |
| JsonDiffContent.DiffPatchPlaces | tinyorm/json-3.11.2/include/nlohmann/json.hpp:4949-5079 | for any target, the result has at every place what the target has there |
| JsonDiffContent.DiffReplaces | tinyorm/json-3.11.2/include/nlohmann/json.hpp:4961-4969 | values of different kinds and unequal scalars are replaced by one operation |
| JsonDiffContent.DiffStaysBelow | tinyorm/json-3.11.2/include/nlohmann/json.hpp:4971-5057 | two arrays or two objects are never replaced as a whole |
| JsonDiffContent.ObjectDiffAt | tinyorm/json-3.11.2/include/nlohmann/json.hpp:5017-5057 | for each key the difference holds the difference of the members, one removal, or one addition of the target's member, and nothing for equal members |
| JsonDiffContent.ArrayDiffAt | tinyorm/json-3.11.2/include/nlohmann/json.hpp:4973-5000 | for each index it holds the difference of the elements, or one removal where the target is shorter |
| JsonDiffContent.ArrayDiffEnd | tinyorm/json-3.11.2/include/nlohmann/json.hpp:5002-5012 | what the target has more is appended in its order |
| JsonMerge.Target.MergePatch | tinyorm/json-3.11.2/include/nlohmann/json.hpp:5091-5115 | whatever order the members are visited in, the result is the recursive function of section 2 of RFC 7396 |
| JsonMerge.MergeIdempotent | tinyorm/json-3.11.2/include/nlohmann/json.hpp:5091-5115 | applying a merge patch twice equals applying it once |
| JsonMerge.MergeIntoNull | tinyorm/json-3.11.2/include/nlohmann/json.hpp:5091-5115 | applied to null a patch gives itself back if and only if it holds no null member |
| JsonMerge.MergeKeepsOthers | tinyorm/json-3.11.2/include/nlohmann/json.hpp:5099-5109 | members the patch does not name are kept as they were, named ones are there exactly when the patch does not say null |
| JsonMerge.MergeAtDepth | tinyorm/json-3.11.2/include/nlohmann/json.hpp:5091-5115 | at any depth that the patch's objects reach, members it does not name are the target's, those it sets to null are absent, and the others are the patch's own, or objects where they are objects there |
| JsonTeardown.TakeTop | tinyorm/json-3.11.2/include/nlohmann/json.hpp:576-603 | replacing the top item by its children removes exactly that item from what is still to be taken, so the pending number falls |
| JsonTeardown.Destroy | tinyorm/json-3.11.2/include/nlohmann/json.hpp:554-603 | the loop ends, takes every descendant off the stack exactly once, and each item has no children left when it is destructed |
| JsonTeardown.TakenOnce | tinyorm/json-3.11.2/include/nlohmann/json.hpp:554-603 | what leaves the stack are the values at all places below the root: pointers without repetition lead to them one by one, and every pointer that can be followed is among these |
| Text.SplitText | tinyorm/mysql4cpp/common.cpp:20-41 | the scanning loop gives the maximal runs without separators |
| Text.SplitJoin | tinyorm/mysql4cpp/common.cpp:20-41 | splitting joined parts that are not empty and free of the separator gives the parts back |
| Text.SplitParts | tinyorm/mysql4cpp/common.cpp:20-41 | on any text no part is empty or holds a separator |
| Text.SplitKeeps | tinyorm/mysql4cpp/common.cpp:20-41 | on any text the parts in order are the text without its separators |
| Text.StripText | tinyorm/mysql4cpp/common.cpp:5-18 | the two scanning loops give the text without outer white space, with the one-character case as it is |
| Text.StripPadding | tinyorm/mysql4cpp/common.cpp:5-18 | padding is taken off if and only if the text has two characters or white space behind it |
| Naming.CppNameToDb | tinyorm/naming.h:16-44 | the scanning loop gives the words of the name in lower case, joined by underscores |
| Naming.DbNameToCpp | tinyorm/naming.h:58-72 | the loop over the parts gives the words joined with capitals, the first one only when asked |
| Naming.CppToDbPieces | tinyorm/naming.h:16-44 | two pieces of a name are parted by an underscore if and only if a capital follows a character that is none |
| Naming.DbToCppPieces | tinyorm/naming.h:58-72 | the first word is kept, or capitalized when asked, and every later one is capitalized |
| Naming.ClassName | tinyorm/naming.h:46-72 | with a capital asked for, the name is the variable's with its first letter capitalized |
| Naming.NameRoundTrip | tinyorm/naming.h:16-72 | dbToCpp(cppToDb(n)) == n if and only if n has no capital first, no underscore and no two adjacent capitals |
| Naming.DbNameRoundTrip | tinyorm/naming.h:16-72 | cppToDb(dbToCpp(s)) == s if and only if s is a snake-case name in the stated sense |
| Naming.CppToDbIdempotent | tinyorm/naming.h:16-44 | converting a converted name changes nothing, for every input |
| Schema.CompareIndexes | tinyorm/datatype.h:77-89 | the loops over both column lists compute the comparison of sizes with the set of all columns |
| Schema.IndexEqualMeaning | tinyorm/datatype.h:77-89 | without repeated columns, two indexes compare equal if and only if name, kind and set of columns are the same |
| Schema.IndexEqualItself | tinyorm/datatype.h:77-89 | an index equals itself if and only if it repeats no column |
| Schema.IndexEqualConfused | tinyorm/datatype.h:77-89 | with a repeated column two different indexes compare equal |
| Migration.Migrator.Sort | tinyorm/model.h:108-149 | the commands are a permutation of those collected, ordered by priority, and nothing more is promised |
| Migration.Migrator.Migrate | tinyorm/model.h:147-251 | the table becomes the result of executing the commands in some order by priority, where a statement that is not well-formed does nothing |
| Migration.Migrator.Compare | tinyorm/model.h:599-678 | the commands collected are exactly those the differences call for, one for each field and each index that differs |
| Migration.PlanOnce | tinyorm/model.h:622-678 | with distinct column names each command of the plan is collected once and no other |
| Migration.ListedReplanned | tinyorm/model.h:660-671 | an index whose columns are kept as one text is dropped and added again when it is compared with the one the database has |
| Migration.Migrator.FindPrevious | tinyorm/model.h:602-621 | the previous version comes from the file, else from the table's name, else from the default name, with the table command that goes with it |
| Migration.Migrator.CompareColumns | tinyorm/model.h:627-658 | the loop adds one command for each field whose column is new, renamed or changed, and none for the others |
| Migration.Migrator.CompareOldIndices | tinyorm/model.h:660-671 | in whatever order the old indexes are visited, each that is gone or different is dropped once, and a different one added again |
| Migration.Migrator.CompareNewIndices | tinyorm/model.h:673-677 | in whatever order the new indexes are visited, each without a previous one is added once |
| MigrationRun.RunState | tinyorm/model.h:147-251 | from any table that can be found, after any number of commands in any order of the sort, the table is exactly what the set of commands that have run says: each column, each index, and the name |
| MigrationRun.OrderDoesNotMatter | tinyorm/model.h:108-149 | any two orders that the sort may give leave the same table, from any table |
| MigrationRun.OutOfReach | tinyorm/model.h:624-625 | a table with neither the new nor the default name is left as it is by every order |
| MigrationProof.MigrationCorrect | tinyorm/model.h:622-680 | for any table and every order, the run ends in the new model's table if and only if the table can be found, each column is there or can be put there and is not given up by a renaming, and each index is there or can be added and is no primary key |
| MigrationProof.ClashFails | tinyorm/model.h:630-650 | a renaming that is carried out and gives up a used name loses a column in every order |
| MigrationMeaning.ColumnsReached | tinyorm/model.h:201-219 | after a migration that can succeed, in every order, each field's column may be null as the field says, has its extra text, its default or the other spelling of the present time, and its type or one that the rules list with it |
| MigrationMeaning.IndexesReached | tinyorm/model.h:220-245 | the table has exactly the model's indexes, of their kinds and on their columns |
| MigrationMeaning.KnownColumnPlan | tinyorm/model.h:651-657 | a column known by its name is changed if and only if null, extra text, default or type differs, up to the two spellings and the listed types |
| MigrationMeaning.UnknownColumnPlan | tinyorm/model.h:630-650 | a column with a new name is renamed from that of its variable if the variable is known, and added otherwise |
| MigrationMeaning.IndexPlan | tinyorm/model.h:660-677 | an index is dropped if and only if it is gone or differs in kind or columns, and added if and only if it is new or differs |
| MigrationMeaning.SearchOrder | tinyorm/model.h:602-625 | the snapshot comes before the database and the own name before the default one; a table is renamed only when known by another name, and created only when nothing is found |
| MigrationProof.MigrationSmooth | tinyorm/model.h:147-251 | after every command of every order the columns nobody mentions are unchanged, and under the condition a command is carried out if and only if the table was ready for it at the start |
| MigrationProof.CreationCorrect | tinyorm/model.h:161-200 | a missing table is created as the model wants it if and only if there is a column, every name is one word, there is at most one key column and no second key, and no extra text |
| MigrationProof.AutoMigrate | tinyorm/model.h:599-680 | load, compare, sort and run in one: the table is the new model's afterwards if and only if the stated condition held before |
| MigrationChain.RunKeepsOk | tinyorm/model.h:147-251 | any commands leave the indexes of a table on columns it has, none repeated |
| MigrationChain.InStepOutcome | tinyorm/model.h:622-680 | from a table that the previous version describes, perhaps with more columns, the migration succeeds if and only if the name is known, no used name is given up, every column fits, and no primary key is added |
| MigrationChain.PlannedFits | tinyorm/model.h:147-251 | when the previous version describes the table, its name is known, and the column commands are well-formed and find their names free, every planned command fits the table as it is at the start |
| MigrationChain.EveryCommandRuns | tinyorm/model.h:147-251 | a migration of that kind that can succeed carries out every command, in every order |
| MigrationChain.ManyVersions | tinyorm/model.h:593-685 | over any number of versions, each saved after its migration, all reach their models if and only if each meets its condition with the table it finds, and the table in the end is the last model's |
| MigrationChain.NextMigration | tinyorm/model.h:593-685 | a migration or creation that succeeds leaves a table that the snapshot saved for its model describes, from which the next migration starts |
| MigrationExamples.ClashExample | tinyorm/model.h:630-650 | one variable renames its column away from a name that a new variable takes: the column is missing afterwards |
| MigrationExamples.UnknownNameExample | tinyorm/model.h:624-625 | a snapshot with a third table name: the table is never renamed |
| MigrationExamples.RemovedStays | tinyorm/model.h:627-658 | from a table that the snapshot describes, removing a variable gives no command, so the table keeps its column and counts as migrated |
| MigrationExamples.ReaddedColumnExample | tinyorm/model.h:637-642 | on that table, a new variable with the same column name and another type does not get its column |
| MigrationExamples.KeyExample | tinyorm/model.h:229-245 | a model whose variable gets the tag pk is not reached |
| MigrationExamples.GluedExample | tinyorm/model.h:210-215 | a new column with a comment behind its type is not added |
| MigrationExamples.CreationExample | tinyorm/model.h:161-200 | a table created for a column with a comment lacks the comment |
| ByteArrays.ByteArray.FillAt | tinyorm/bytearray.h:113-121 | copies the data over its range and nothing else, or nothing at all when it does not fit |
| ByteArrays.ByteArray.Fill | tinyorm/bytearray.h:123-132 | copies at the write pointer, which moves even when nothing was copied |
| ByteArrays.ByteArray.FillChar | tinyorm/bytearray.h:134-142 | repeats the character as often as asked or up to the end of the buffer |
| SnapshotFile.EncodeHeader | tinyorm/dataloader.h:49-65 | the buffer is filled to its last byte with the header format |
| Snapshot.HeaderLayout | tinyorm/dataloader.h:54-65 | where the marker, the two bytes of length, the lengths and the names of a header are |
| Snapshot.ColumnLayout | tinyorm/dataloader.h:79-106 | where the five parts of a column are, each with its length in front, and which bit of the flags stands for what |
| Snapshot.IndexLayout | tinyorm/dataloader.h:118-139 | where the kind, the name and the columns of an index are |
| SnapshotFile.EncodeColumn | tinyorm/dataloader.h:79-106 | the buffer is filled to its last byte with the column format |
| SnapshotFile.EncodeIndex | tinyorm/dataloader.h:118-139 | the buffer is filled to its last byte with the index format |
| SnapshotFile.ModelFile.SaveModel | tinyorm/dataloader.h:200-229 | appends one record: a header with the exact length of what follows, all columns in order, and every index once in some order |
| SnapshotReader.ParseHeader | tinyorm/dataloader.h:311-318 | undoes the header encoder and leaves the cursor right behind it |
| SnapshotReader.ParseColumnField | tinyorm/dataloader.h:320-350 | undoes the column encoder, with nothing left over from the column before |
| SnapshotReader.ParseIndexField | tinyorm/dataloader.h:352-365 | undoes the index encoder |
| SnapshotReader.ReadCombined | tinyorm/dataloader.h:368-375 | gives back the two parts on the sides of the bar |
| SnapshotReader.Loader.Load | tinyorm/dataloader.h:238-289 | the state machine ends and has collected the first record of its class, or nothing: records before it are skipped by their length, those behind it are not touched |
| SnapshotReader.LoadFromFile | tinyorm/dataloader.h:232-291 | on the bytes of any list of records, gives the contents of the first record of the class, or nothing |
| SnapshotProof.RecordRoundTrip | tinyorm/dataloader.h:200-291 | a saved record gives back the table name, the columns in order with their positions and each of their ten parts, and the index map, whatever order the indexes were written in |
| SnapshotProof.FindByClass | tinyorm/dataloader.h:256-271 | the first record with a class name is found whatever stands before it |
| SnapshotProof.FindNoClass | tinyorm/dataloader.h:247-252 | for a class that is not in the file nothing is found |
| SnapshotProof.BodyLength | tinyorm/dataloader.h:208-221 | the length written into the header is the sum of the lengths of all columns and indexes, whatever order the indexes are visited in |
| SnapshotProof.SaveModels | tinyorm/db.h:37-47 | after emptying the file and saving every model, the file holds one record for each, in order |
| SnapshotProof.FileRoundTrip | tinyorm/dataloader.h:200-291 | saving models with distinct class names and loading any of them gives that model back, its columns part by part, and nothing of the others |
| SnapshotProof.SaveThenLoad | tinyorm/dataloader.h:200-375 | the same for the bytes: the writer followed by the reader, when the lengths of each model add up to a short |
| SnapshotProof.ReloadIsGood | tinyorm/dataloader.h:272-282 | a reloaded model meets all the planner needs of a previous version |
| SnapshotProof.ReplanIsEmpty | tinyorm/model.h:622-678 | planning against one's own reloaded record gives no command if and only if there is no column or no index repeats a column |
| SnapshotProof.SaveThenCompare | tinyorm/model.h:599-678 | saving all models, loading one and comparing it with itself collects no command, under the same condition |
| PoolProtocol.StepInv | tinyorm/mysql4cpp/connectionpool.cpp:35-87 | every step of every thread keeps the pool's and the handles' invariant |
| PoolProtocol.PoolSafety | tinyorm/mysql4cpp/connectionpool.cpp:35-87 | over all interleavings: idle and used ids are disjoint, the stored handles are exactly the idle ones, every id is below the counter, the pool never exceeds its size, and each connection has at most one live handle |
| PoolProtocol.ExhaustedOnlyWhenFull | tinyorm/mysql4cpp/connectionpool.cpp:69-75 | getConn gives up only when nothing is idle, all places are used, and all waits have been taken |
| PoolProtocol.WaitsBounded | tinyorm/mysql4cpp/connectionpool.cpp:39-43 | each wait of a thread has a higher number and the number is bounded |
| PoolProtocol.CloseTwice | tinyorm/mysql4cpp/sqlconn.cpp:132-136 | a second close of any handle changes nothing |
| PoolProtocol.CloseMakesIdle | tinyorm/mysql4cpp/connectionpool.cpp:78-87 | closing a counted handle makes its connection the one a later getConn may hand out, unchanged |
| PoolProtocol.LostForever | tinyorm/mysql4cpp/connectionpool.cpp:39-87 | a handle dropped without close stays counted as used over every further run |
| PoolProtocol.AllLost | tinyorm/mysql4cpp/connectionpool.cpp:69-75 | once as many handles are dropped as the pool may have, every later getConn is refused |
| PoolProtocol.ServesUnlessLost | tinyorm/mysql4cpp/connectionpool.cpp:35-87 | a request can be served at once or after one handle is closed if and only if fewer connections are lost than the pool has places |
| PoolProtocol.DroppedExample | tinyorm/mysql4cpp/connectionpool.cpp:39-75 | in a pool of one place and one wait, after the handle is dropped another thread's request is refused, and so is every later one |
| PoolProtocol.AllClosed | tinyorm/mysql4cpp/connectionpool.cpp:78-87 | with every handle closed and none dropped, no connection is in use |
| PoolOutcomes.GetConnOutcome | tinyorm/mysql4cpp/connectionpool.cpp:44-75 | an idle connection is handed out whenever there is one, and no new number drawn; otherwise a new one that the pool counts unless its test failed; a closed handle only when nothing is idle and the database refused or the pool is full |
| PoolOutcomes.WaitOnlyWhenFull | tinyorm/mysql4cpp/connectionpool.cpp:39-43 | a thread waits if and only if nothing is idle, the pool is full and waits are left, and a wait changes nothing |
| PoolOutcomes.NeverStuck | tinyorm/mysql4cpp/connectionpool.cpp:39-75 | a thread that does not wait gets an answer |
| PoolOutcomes.CloseOutcome | tinyorm/mysql4cpp/connectionpool.cpp:78-87 | closing gives a counted connection back and changes nothing in every other case |
| PoolOutcomes.CloseThenReuse | tinyorm/mysql4cpp/connectionpool.cpp:44-53 | after a close the next request takes an idle connection and opens none |
| PoolOutcomes.MoveOutcome | tinyorm/mysql4cpp/sqlconn.cpp:26-45 | a move hands everything over, leaves a closed handle, and loses exactly a counted connection that the target held |
| PoolOutcomes.DestroyOutcome | tinyorm/mysql4cpp/sqlconn.cpp:26-33 | a handle that goes out of scope loses its connection if and only if the pool counts it |
| ConnectionPools.SqlConn.Moved | tinyorm/mysql4cpp/sqlconn.cpp:26-33 | the new handle owns what the source owned, and the source owns nothing |
| ConnectionPools.SqlConn.Assign | tinyorm/mysql4cpp/sqlconn.cpp:35-45 | the same for assignment, and assigning to itself changes nothing |
| ConnectionPools.SqlConn.Close | tinyorm/mysql4cpp/sqlconn.cpp:132-136 | takes the protocol's release step for a handle with a pool and none otherwise |
| ConnectionPools.ConnectionPool.GetConn | tinyorm/mysql4cpp/connectionpool.cpp:35-76 | takes the protocol's step for the pool as it is found after the last wait, and keeps the invariant |
| ConnectionPools.CallIsRun | tinyorm/mysql4cpp/connectionpool.cpp:35-76 | a call of getConn, its waits with whatever other threads do in between included, is a legal run of the protocol with the same pool and handle at its end |
| ConnectionPools.ConnectionPool.ReleaseConn | tinyorm/mysql4cpp/connectionpool.cpp:78-87 | takes the protocol's release step, which ignores a connection that is not in use |
| Tags.ParseField | tinyorm/datatype.h:126-202 | the nested loops compute the specified field for every tag text |
| Tags.PrintTags | tinyorm/generator/ModelGen.cpp:37-53 | the generator prints the specified tag text for every column |
| TagParts.TextIsParts | tinyorm/generator/ModelGen.cpp:37-53 | for every column the printed text is a list of tags, the word for counting up being part of the type's tag when there is no key |
| TagProof.ParsedClean | tinyorm/datatype.h:126-202 | for every text, no name or type with a comma or with white space at an end comes out, no default but one word, and no extra text with a capital, a comma or an equals sign |
| TagProof.TagRoundTrip | tinyorm/datatype.h:126-202 | for every column, parsing the printed tags gives the column back if and only if it meets the stated condition on each of its parts |
| TagProof.ShortNameLost | tinyorm/generator/ModelGen.cpp:37-53 | a column with a name of one character does not come back |
| TagProof.DecimalLost | tinyorm/generator/ModelGen.cpp:37-53 | a column of type decimal(10,2) or enum('a','b') does not come back |
| TagProof.OnUpdateLost | tinyorm/generator/ModelGen.cpp:37-53 | a column with the extra text "on update CURRENT_TIMESTAMP" does not come back |
| TagMeaning.KeyMeaning | tinyorm/datatype.h:135-144 | a tag with "=" sets the name or the type, whatever the case of its key, and does nothing with any other key |
| TagMeaning.IndexTag | tinyorm/datatype.h:175-180 | the tag "index" gives any field a plain index on its column, and nothing else |
| TagMeaning.UniqueTag | tinyorm/datatype.h:181-186 | the tag "unique" gives it a unique index |
| TagMeaning.IgnoreTag | tinyorm/datatype.h:173-174 | the tag "ignore" keeps it out of INSERT statements and does nothing else |
| TagMeaning.PrimaryTag | tinyorm/datatype.h:164-201 | both spellings of a primary key make it one that is never null |
| TagMeaning.NameAndIndex | tinyorm/datatype.h:135-186 | an index is on the column name known when its tag is read, so a name given later is not used for it |
| Generator.ColumnStays | tinyorm/generator/ModelGen.cpp:37-53 | a column that comes back from its tags equals, in the generated model, the column loaded from the database |
| Generator.IndexesOf | tinyorm/generator/ModelGen.cpp:56-68 | the generated model has exactly the indexes of the table, and each equals the loaded one if and only if it is unique or has one column |
| Generator.GeneratedPlansNothing | tinyorm/model.h:605-678 | a model generated from a table with such columns, found again under its name, plans nothing if and only if every index is unique or has one column |
| OrderedMap.OrderedMap.Find | tinyorm/json-3.11.2/include/nlohmann/ordered_map.hpp:286-296 | the search gives the first position of the key, or the end when no entry has it |
| OrderedMap.OrderedMap.Count | tinyorm/json-3.11.2/include/nlohmann/ordered_map.hpp:260-270 | one when some entry has the key, else none |
| OrderedMap.OrderedMap.Emplace | tinyorm/json-3.11.2/include/nlohmann/ordered_map.hpp:54-65 | a key that is there is left alone and its position given; otherwise the entry goes to the end |
| OrderedMap.OrderedMap.EraseKey | tinyorm/json-3.11.2/include/nlohmann/ordered_map.hpp:162-179 | the in-place shift takes out the first entry of the key and keeps all others in order |
| OrderedMap.OrderedMap.EraseRange | tinyorm/json-3.11.2/include/nlohmann/ordered_map.hpp:207-258 | the in-place shift takes out the range and keeps all others in order; the returned position is that of the entry behind the gap |
| OrderedMap.OrderedMap.InsertRange | tinyorm/json-3.11.2/include/nlohmann/ordered_map.hpp:329-353 | inserts the entries one after the other, skipping keys that are there |
| OrderedMap.InsertIsRun | tinyorm/json-3.11.2/include/nlohmann/ordered_map.hpp:342-353 | inserting a range is a run of single insertions |
| OrderedMap.StepRefines | tinyorm/json-3.11.2/include/nlohmann/ordered_map.hpp:54-258 | each operation does to the vector what it means for a mathematical map with an order of its keys |
| OrderedMap.AnyRun | tinyorm/json-3.11.2/include/nlohmann/ordered_map.hpp:54-258 | over any run from empty the keys are distinct, in order of insertion, and lookups agree with the mathematical map |
| OrderedMap.EraseForgets | tinyorm/json-3.11.2/include/nlohmann/ordered_map.hpp:162-179 | for any entries, as a range constructor may leave them, erasing a key removes it if and only if it had no second entry |
| BatchInsert.Create | tinyorm/model.h:336-362 | the statement has the specified text, the values of all rows are bound from the first position on, and each position at most once |
| BatchInsert.PlaceholderCount | tinyorm/model.h:336-386 | n rows and k columns give exactly n * k placeholders beside any in the names themselves |
| BatchInsert.Aligned | tinyorm/model.h:336-386 | position r * k + c + 1 holds the value of row r for the column printed as number c, by the kind of its type, or nothing when its type is not supported |
| BatchInsert.KindMeaning | tinyorm/model.h:373-380 | integers are bound as such by their plain type name, texts and times under any qualification, and other types not at all |
| BatchInsert.TextExample | tinyorm/model.h:336-362 | the whole statement for two rows of a table with two columns |
| BatchInsert.SettledOnce | tinyorm/model.h:336-386 | every position with a value has been set exactly once and no other has been set |
| BatchInsert.KeptInOrder | tinyorm/model.h:345-354 | the columns are printed in the order of the metadata |
| BatchInsert.KeptComplete | tinyorm/model.h:336-386 | every column that is not ignored is printed, behind all those before it |

## Left out

- Patches as JSON text: operations are typed values, so a patch that is no array, an operation without its members or an unknown operation name (errors 104 and 105) and the escaping of tokens are not part of this model.
- Array indexes of 2^64 - 1 and beyond, and the text form of pointers; nlohmann/detail/json_pointer.hpp is not part of this model.
- NaN, infinities and discarded values, iterators, allocators, template conversions, dumping, parsing and the binary formats of the JSON library.
- JsonPatch.Document.OperationAdd: follows the pointer through a value and rebuilds it, instead of writing through a reference into a tree; references that a caller holds into the document are not captured.
- JsonPatch.Document.OperationRemove: the same.
- JsonTeardown.Destroy: moving children out is modelled by the emptied value that remains; memory itself is not.
- Migration.Migrator.Migrate: SQL text is not modelled; commands act on a table of columns and indexes, and whether a text is well-formed is decided by the two rules above.
- MigrationProof.AutoMigrate: one migration in one process; a second call meets static variables that are not cleared. Other tables, the rows of a table and what MySQL checks beyond names are not modelled, such as that a column counts up only as a key.
- MigrationProof.MigrationCorrect: the metadata are well-formed: distinct column names and variable names, and indexes that name distinct columns of the model.
- Loading previous metadata from information_schema: it is an input of the planner.
- SnapshotReader.LoadFromFile: reads files that the writer has written; corrupt files, a file that cannot be opened, and texts beyond the range of a signed length byte or short are not covered.
- SnapshotReader.ParseColumnField: strings that were moved from are taken to be empty, as all common libraries leave them.
- Memory management of buffers (copying, moving, failed allocation).
- ConnectionPools.ConnectionPool.GetConn: the time a wait takes, connecting and the test query are choices of the environment; error texts are left out. The connection id drawn under its own lock is one atomic step with the rest.
- Reconfiguring or deleting the pool while it is in use.
- PoolProtocol.PoolSafety: a metadata handle opened by getMetadata is treated as any other handle outside of the pool.
- OrderedMap.OrderedMap.EraseRange: positions are numbers, so the validity of iterators is not modelled. The overloads for other key types, operator[] and the constructors from a range are left out.
- BatchInsert.Create: a statement that fails to prepare has no positions, and the connection, execution and the conversion of values are left out. Create for a single row, Update, Delete, Select and the query builder are not modelled.
- Naming.CppNameToDb: character classes are those of the "C" locale.
- TagProof.TagRoundTrip: on its way to the parser the text passes a macro (tinyorm/reflection.h:62) that collapses white space, so a name or a type with two blanks inside still changes; the printed text is taken as it is.
- Generator.GeneratedPlansNothing: says nothing of columns that do not come back from their tags; two columns whose names give the same variable name do not compile, and mapping a database type to a C++ type is an arbitrary function.
- Timestamps, result sets, reflection macros, the command line and the remaining generator output.
