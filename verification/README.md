# ReleaseBox directory/file store in Dafny

This project models the persistence layer of ReleaseBox. ReleaseBox keeps a tree of directories and files in two SQLite tables. Around that layer it uses a small functional vocabulary for error propagation:

- `Option` with its subclasses `Some` and `None`;
- `Result`;
- the `Error` record.

The project models that vocabulary as well.

**The store** is two maps from id to row (`parent`, `name`): one for directories and one for files. Each has its own id space. The constraints the schema declares are stated as predicates:

- names are non-blank after SQLite's `TRIM`;
- `(parent, name)` is unique per table;
- every parent is an existing directory.

A further predicate, `Rooted`, states the tree shape that the operations keep.

**The operations** are pure functions from a store to a new store and a result:

- the bootstrap (`Initialize`);
- the two `INSERT ... RETURNING id` commands, which check their constraints in SQLite's order;
- `DELETE ... WHERE id = :id` with its `ON DELETE CASCADE` and its change count;
- the one-level `UNION` listing;
- the recursive subtree search. It computes the `WITH RECURSIVE` closure as a least fixpoint, filters with `LIKE prefix || '%'`, then applies `LIMIT`.

The search is a method that reads a nondeterministic choice of the matching rows.

**The three repositories** wrap each command in a transaction. Each error path returns the store unchanged, with an `Error` built from a closed code enum. The engine assigns the id of a new row, so the model takes it as a parameter `newId`, which must not yet be a key of its table. Any engine failure other than a constraint violation is a boolean parameter `engineFault`; examples are a busy database, an I/O error, or a failed commit.

Modules, one per source component:

- `Expect`: `Option`, `Result`, and `Call`, which records a return or a throw.
- `ExpectLaws`: the combinator laws.
- `Errors`, `ErrorCodes`: the error record and the code enums.
- `Schema`, `DirectoryTree`, `LikeOperator`: the tables, the closure, and the `LIKE` operator.
- The commands: `DatabaseInitializer`, `InsertCommands`, `DeleteCommand`, `ListCommand`, `SearchCommand`.
- The repositories and what they share: `RepositoryResults`, `DirectoryRepository`, `FileRepository`, `EntryRepository`.
- `Scenario`: a run from an empty database.

Four behaviours of the code are easy to misread, and the model follows the code:

- **Prefix search.** The prefix match is SQL `LIKE` on `prefix || '%'`. `LIKE` ignores ASCII case and treats `%` and `_` inside the prefix as wildcards, so it is not an exact, case-sensitive prefix test. `LikeOperator` models `LIKE`.
- **Root deletion.** The three-parameter `DeleteById` command filters on the id only, while the directory repository calls it with a fourth argument, `ParentDirectoryId`. The root survives a delete only if that argument adds a non-NULL-parent filter. The model offers both filters (`RowFilter`). `RootDeletion` proves that the root survives with the parent filter and that the whole store is emptied without it.
- **Get error codes.** `GetErrorCodes.EntityNotFound` exists and `ReleaseBox.WebApi/Util/ActionResult.cs:34` maps it, but no repository returns it: the listing and the search report only `UnknownError`.
- **Self-parented directories.** The directory repository inserts through the engine exactly as written, so a new directory may name its own new id as parent (see "## Findings"). `DirectoryRepository.CreateDirectory` models that behaviour, and `DirectoryRepository.CreateDirectoryAsIntended` models the corrected one.

## Model

| member | source | states |
|---|---|---|
| `Expect.Option.IsSome` | Common/Expect/Option.cs:47 | an option is some exactly when it was built by `Some`; its partner laws are in `ExpectLaws.OptionIsSomeXorIsNone` |
| `Expect.Option.IsNone` | Common/Expect/Option.cs:53-56 | an option is none exactly when it is not some |
| `Expect.Option.Expect` | Common/Expect/Option.cs:163-166 | returns the carried value of a Some and throws on a None (None side at lines 275-278) |
| `Expect.Option.ExpectNone` | Common/Expect/Option.cs:169-172 | throws exactly when the option is a Some; a None returns normally (line 280) |
| `Expect.Option.Map` | Common/Expect/Option.cs:175-178 | the result is some exactly when the receiver is, and then holds the mapped value (None side at 285-288) |
| `Expect.Option.MapOr` | Common/Expect/Option.cs:181-184 | a Some yields the mapped value, a None the default (None side at 290-293) |
| `Expect.Option.MapOrElse` | Common/Expect/Option.cs:187-190 | a Some yields the mapped value, a None the producer's value (None side at 295-298) |
| `Expect.Option.FlatMap` | Common/Expect/Option.cs:193-196 | a Some continues with the mapper's option, a None stays none (None side at 300-303) |
| `Expect.Option.FlatMapOrElse` | Common/Expect/Option.cs:199-203 | a Some continues with the some-mapper, a None with the none-mapper (None side at 305-309) |
| `Expect.Option.ToResult` | Common/Expect/Option.cs:206-209 | the result is ok exactly when the option is some; it carries the value, or the given error for a None (311-314) |
| `Expect.Option.ToResultElse` | Common/Expect/Option.cs:212-215 | as `ToResult`, with the error taken from the producer only for a None (316-319) |
| `Expect.Option.UnwrapOr` | Common/Expect/Option.cs:217-220 | a Some yields its value, a None the default (321-324) |
| `Expect.Option.UnwrapOrElse` | Common/Expect/Option.cs:222-225 | a Some yields its value, a None the producer's value (326-329) |
| `Expect.Option.OnSome` | Common/Expect/Option.cs:232-236 | the receiver comes back unchanged (None side at 253-256) |
| `Expect.Option.OnNone` | Common/Expect/Option.cs:238-241 | the receiver comes back unchanged (None side at 258-262) |
| `Expect.OptionEquals` | Common/Expect/Option.cs:102-124 | the `==` operator agrees with structural equality: two Nones are equal, two Somes when their values are, never a Some and a None |
| `Expect.OptionNotEquals` | Common/Expect/Option.cs:127-130 | `!=` holds exactly when the options differ |
| `Expect.Result.IsOk` | Common/Expect/Result.cs:46-49 | a result is ok exactly when it was built from an ok value; its partner law is `ExpectLaws.ResultIsOkXorIsError` |
| `Expect.Result.IsError` | Common/Expect/Result.cs:67-70 | a result is an error exactly when it is not ok |
| `Expect.Result.Expect` | Common/Expect/Result.cs:86-91 | returns exactly when the result is ok, and then returns the ok value |
| `Expect.Result.ExpectError` | Common/Expect/Result.cs:94-99 | returns exactly when the result is an error, and then returns the error |
| `Expect.Result.Map` | Common/Expect/Result.cs:102-105 | keeps the branch; an ok value is mapped, an error passes through unchanged |
| `Expect.Result.MapError` | Common/Expect/Result.cs:108-111 | keeps the branch; an error is mapped, an ok value passes through unchanged |
| `Expect.Result.MapOr` | Common/Expect/Result.cs:114-117 | an ok value is mapped; an error yields the default |
| `Expect.Result.MapOrElse` | Common/Expect/Result.cs:120-123 | an ok value goes through the ok mapper, an error through the error mapper |
| `Expect.Result.Then` | Common/Expect/Result.cs:126-129 | bind: an ok value continues with the mapper's result, an error is kept |
| `Expect.Result.And` | Common/Expect/Result.cs:138-141 | an ok receiver is replaced by the other result, an error is kept |
| `Expect.Result.Or` | Common/Expect/Result.cs:144-147 | an ok receiver is kept, an error is replaced by the alternative |
| `Expect.Result.OrElse` | Common/Expect/Result.cs:150-153 | an ok receiver is kept, an error is replaced by the produced alternative |
| `Expect.Result.UnwrapOrElse` | Common/Expect/Result.cs:156-159 | the ok value, or the fallback computed from the error |
| `Expect.Result.UnwrapOr` | Common/Expect/Result.cs:162-165 | the ok value, or the default |
| `Expect.Result.OnError` | Common/Expect/Result.cs:168-173 | the receiver comes back unchanged |
| `Expect.Result.OnSuccess` | Common/Expect/Result.cs:176-181 | the receiver comes back unchanged |
| `Expect.Result.Match` | Common/Expect/Result.cs:184-187 | takes the ok mapper exactly on an ok value and the error mapper on an error |
| `Expect.Result.Transform` | Common/Expect/Result.cs:190-196 | keeps the branch and maps each branch with its own function |
| `Expect.Result.ToOption` | Common/Expect/Result.cs:199-202 | some exactly when ok, carrying the ok value |
| `ExpectLaws.ResultIsOkXorIsError` | Common/Expect/Result.cs:48-70 | exactly one of `IsOk` and `IsError` holds |
| `ExpectLaws.ResultExpectRoundTrip` | Common/Expect/Result.cs:86-99 | `Expect` gives back what `Ok` stored and `ExpectError` what `Error` stored; the opposite calls throw |
| `ExpectLaws.ResultMapIdentity` | Common/Expect/Result.cs:102-105 | mapping with the identity changes nothing |
| `ExpectLaws.ResultMapComposition` | Common/Expect/Result.cs:102-105 | mapping twice is mapping with the composition |
| `ExpectLaws.ResultMapErrorIdentity` | Common/Expect/Result.cs:108-111 | mapping the error with the identity changes nothing |
| `ExpectLaws.ResultMapsCommute` | Common/Expect/Result.cs:102-111 | `Map` and `MapError` commute |
| `ExpectLaws.ResultTransformIsMapThenMapError` | Common/Expect/Result.cs:190-196 | `Transform(f, g)` equals `Map(f)` followed by `MapError(g)` |
| `ExpectLaws.ResultThenLeftIdentity` | Common/Expect/Result.cs:126-129 | `Ok(v).Then(f)` is `f(v)` |
| `ExpectLaws.ResultThenRightIdentity` | Common/Expect/Result.cs:126-129 | binding with `Ok` changes nothing |
| `ExpectLaws.ResultThenAssociative` | Common/Expect/Result.cs:126-129 | chained binds associate |
| `ExpectLaws.ResultMapIsThenOk` | Common/Expect/Result.cs:102-129 | `Map(f)` equals `Then` with `f` wrapped in `Ok` |
| `ExpectLaws.ResultAndIsThenConstant` | Common/Expect/Result.cs:138-141 | `And(o)` equals `Then(_ => o)` |
| `ExpectLaws.ResultOrIsOrElseConstant` | Common/Expect/Result.cs:144-153 | `Or(o)` equals `OrElse(() => o)` |
| `ExpectLaws.ResultMatchAgreesWithMapOrElse` | Common/Expect/Result.cs:184-187 | `Match` equals `MapOrElse`, and `Map` then `UnwrapOr` equals `MapOr` |
| `ExpectLaws.ResultOptionRoundTrip` | Common/Expect/Result.cs:199-202 | an error turned into an option and back with its own error is unchanged |
| `ExpectLaws.ResultOkOptionRoundTrip` | Common/Expect/Result.cs:199-202 | an ok result turned into an option and back is unchanged, whatever error is supplied |
| `ExpectLaws.OptionIsSomeXorIsNone` | Common/Expect/Option.cs:47-56 | exactly one of `IsSome` and `IsNone` holds; a Some is some and a None is none |
| `ExpectLaws.OptionExpectBehaviour` | Common/Expect/Option.cs:163-172 | `Expect` returns a Some's value and throws on None; `ExpectNone` throws only on a Some |
| `ExpectLaws.OptionMapIdentity` | Common/Expect/Option.cs:175-178 | mapping with the identity changes nothing |
| `ExpectLaws.OptionMapComposition` | Common/Expect/Option.cs:175-178 | mapping twice is mapping with the composition |
| `ExpectLaws.OptionFlatMapLeftIdentity` | Common/Expect/Option.cs:193-196 | `Some(v).FlatMap(f)` is `f(v)` |
| `ExpectLaws.OptionFlatMapRightIdentity` | Common/Expect/Option.cs:193-196 | flat-mapping with `Some` changes nothing |
| `ExpectLaws.OptionFlatMapAssociative` | Common/Expect/Option.cs:193-196 | chained flat-maps associate |
| `ExpectLaws.OptionMapOrIsMapThenUnwrapOr` | Common/Expect/Option.cs:181-190 | `MapOr` equals `Map` then `UnwrapOr`, and equals `MapOrElse` with a constant producer |
| `ExpectLaws.OptionResultRoundTrip` | Common/Expect/Option.cs:206-215 | an option turned into a result and back is unchanged; the two `Result` overloads agree |
| `ExpectLaws.OptionEqualityIsEquivalence` | Common/Expect/Option.cs:102-130 | `==` is reflexive, symmetric and transitive, and `!=` is its negation |
| `ExpectLaws.OptionEqualityOnValues` | Common/Expect/Option.cs:102-124 | two Somes are equal exactly when their values are; a Some never equals a None; two Nones are equal |
| `Errors.Error.ConvertTo` | Common/Error/Error.cs:29-32 | only the code changes, to the mapped code; description and exception carry over |
| `Errors.WithoutException` | Common/Error/Error.cs:7-9 | the two-argument constructor keeps code and description and attaches no exception |
| `Errors.WithException` | Common/Error/Error.cs:12-17 | the three-argument constructor's properties are its arguments |
| `Errors.ConvertToIdentity` | Common/Error/Error.cs:29-32 | converting with the identity changes nothing |
| `Errors.ConvertToComposition` | Common/Error/Error.cs:29-32 | converting twice is converting with the composition |
| `Errors.ErrorEqualityIsComponentwise` | Common/Error/Error.cs:5-26 | two errors are equal exactly when code, description and exception are |
| `Schema.Trim` | ReleaseBox.Data.Sqlite/DatabaseInitializer.cs:55 | SQLite's one-argument `TRIM`: the result is a contiguous slice of the input, what lies before and after it is spaces only, and, unless empty, it neither starts nor ends with a space; so exactly the outer spaces are removed |
| `Schema.NonBlank` | ReleaseBox.Data.Sqlite/DatabaseInitializer.cs:55 | the `CHECK(TRIM(name) <> '')` of both tables (also line 66); `Schema.NonBlankIffSomeNonSpace` proves it accepts exactly the names with a non-space character |
| `Schema.TrimLeading` | ReleaseBox.Data.Sqlite/DatabaseInitializer.cs:55 | the result is a suffix of the input, what it drops is spaces only, and it does not start with a space |
| `Schema.TrimTrailing` | ReleaseBox.Data.Sqlite/DatabaseInitializer.cs:55 | the result is a prefix of the input, what it drops is spaces only, and it does not end with a space |
| `Schema.TrimIsEmptyIffAllSpaces` | ReleaseBox.Data.Sqlite/DatabaseInitializer.cs:55 | `TRIM` of a name is empty exactly when the name consists of spaces |
| `Schema.NonBlankIffSomeNonSpace` | ReleaseBox.Data.Sqlite/DatabaseInitializer.cs:55 | the name check accepts a name exactly when some character is not a space |
| `Schema.BlankNamesRejected` | ReleaseBox.Data.Sqlite/DatabaseInitializer.cs:55 | `""`, `" "` and `"   "` fail the name check |
| `Schema.TabNameAccepted` | ReleaseBox.Data.Sqlite/DatabaseInitializer.cs:66 | a name of one tab passes the name check, since `TRIM` strips spaces only |
| `Schema.SiblingClashImpliesOtherConstraintsHold` | ReleaseBox.Data.Sqlite/DatabaseInitializer.cs:55-57 | under the schema constraints, a name that clashes with a sibling is non-blank and its parent exists |
| `DirectoryTree.Subtree` | ReleaseBox.Data.Sqlite/Commands/SearchForFilesInSubtree.cs:18-26 | the recursive CTE seeded by `VALUES(:root)`: it holds the seed and is closed under taking children; `DirectoryTree.SubtreeIsLeastClosedSet` proves it is the least such set |
| `DirectoryTree.Children` | ReleaseBox.Data.Sqlite/Commands/SearchForFilesInSubtree.cs:22-25 | one step of the recursive query: exactly the directories whose parent is in the set |
| `DirectoryTree.Close` | ReleaseBox.Data.Sqlite/Commands/SearchForFilesInSubtree.cs:18-26 | the fixpoint iteration contains the seed, is closed under taking children, and adds nothing but children |
| `DirectoryTree.CloseIsLeast` | ReleaseBox.Data.Sqlite/Commands/SearchForFilesInSubtree.cs:18-26 | the fixpoint lies inside every closed set containing the seed |
| `DirectoryTree.SubtreeIsLeastClosedSet` | ReleaseBox.Data.Sqlite/Commands/SearchForFilesInSubtree.cs:18-26 | the closure holds the root, is closed under children, and is the least such set |
| `DirectoryTree.SubtreeMemberHasParentInside` | ReleaseBox.Data.Sqlite/Commands/SearchForFilesInSubtree.cs:22-25 | every member other than the root is a directory whose parent is a member |
| `DirectoryTree.ChildInSubtree` | ReleaseBox.Data.Sqlite/Commands/SearchForFilesInSubtree.cs:22-25 | a child of the root is in the root's closure |
| `DirectoryTree.SubtreeOfMissingDirectory` | ReleaseBox.Data.Sqlite/Commands/SearchForFilesInSubtree.cs:20 | with foreign keys in force, the closure of an id that is no directory is that id alone |
| `DirectoryTree.CloseGrowsWithTable` | ReleaseBox.Data.Sqlite/Commands/SearchForFilesInSubtree.cs:18-26 | adding directory rows can only enlarge a closure |
| `DirectoryTree.RootedHasNoSelfParent` | ReleaseBox.Data.Sqlite/DatabaseInitializer.cs:57 | in a store where every directory descends from the root, no directory is its own parent |
| `LikeOperator.AsciiLower` | ReleaseBox.Data.Sqlite/Commands/SearchForFilesInSubtree.cs:32 | upper-case ASCII letters fold to their lower-case letter, every other character is kept |
| `LikeOperator.PercentMatchesEverything` | ReleaseBox.Data.Sqlite/Commands/SearchForFilesInSubtree.cs:55 | the pattern `%` built from an empty prefix matches every name |
| `LikeOperator.PrefixPatternMatchesPrefixes` | ReleaseBox.Data.Sqlite/Commands/SearchForFilesInSubtree.cs:32 | for a prefix without wildcards, `name LIKE prefix%` holds exactly when the name starts with the prefix ignoring ASCII case |
| `LikeOperator.MismatchWithinPrefixExcludes` | ReleaseBox.Data.Sqlite/Commands/SearchForFilesInSubtree.cs:32 | a name that differs from a plain prefix within the prefix's length does not match |
| `LikeOperator.Like` | ReleaseBox.Data.Sqlite/Commands/SearchForFilesInSubtree.cs:32 | SQL `LIKE` without `ESCAPE`; `LikeOperator.PrefixPatternMatchesPrefixes` proves that a wildcard-free prefix followed by `%` matches exactly the names starting with it, ignoring ASCII case |
| `LikeOperator.MatchIgnoresAsciiCase` | ReleaseBox.Data.Sqlite/Commands/SearchForFilesInSubtree.cs:32 | an upper-case prefix matches a lower-case name |
| `LikeOperator.UnderscoreInPrefixIsAWildcard` | ReleaseBox.Data.Sqlite/Commands/SearchForFilesInSubtree.cs:32 | an `_` in the prefix matches any one character |
| `DatabaseInitializer.Initialize` | ReleaseBox.Data.Sqlite/DatabaseInitializer.cs:23-40 | the committed effect: files are untouched; a store with any directory is unchanged; a store without one gains exactly the root row |
| `DatabaseInitializer.InitializeTransaction` | ReleaseBox.Data.Sqlite/DatabaseInitializer.cs:23-40 | the call throws exactly on an engine fault, since nothing catches it; when it returns, files are untouched, the store is unchanged exactly when it had a directory, and it then holds at least one directory |
| `DatabaseInitializer.InitializeIsIdempotent` | ReleaseBox.Data.Sqlite/DatabaseInitializer.cs:30-36 | a second bootstrap changes nothing |
| `DatabaseInitializer.InitializeEmptyStore` | ReleaseBox.Data.Sqlite/DatabaseInitializer.cs:25-39 | from an empty database, exactly the root `(0, NULL, "~")` and no file remain |
| `DatabaseInitializer.InitializeProbesForAnyRow` | ReleaseBox.Data.Sqlite/DatabaseInitializer.cs:73-75 | the probe asks for any directory, so a non-empty table without id 0 gets no root |
| `DatabaseInitializer.RootNameIsNonBlank` | ReleaseBox.Data.Sqlite/DatabaseInitializer.cs:77-80 | the root's name `~` passes the name check |
| `DatabaseInitializer.BootstrappedIsValid` | ReleaseBox.Data.Sqlite/DatabaseInitializer.cs:77-80 | the root-only store meets every schema constraint |
| `DatabaseInitializer.BootstrappedIsRooted` | ReleaseBox.Data.Sqlite/DatabaseInitializer.cs:77-80 | the root-only store has the tree shape |
| `DatabaseInitializer.InitializeEstablishesRoot` | ReleaseBox.Data.Sqlite/DatabaseInitializer.cs:23-40 | bootstrap keeps the schema constraints and tree shape, and afterwards the root exists with no parent |
| `InsertCommands.Candidate` | ReleaseBox.Data.Sqlite/Commands/InsertDirectoryEntity.cs:12-13 | the store with one row added to the chosen table; the other table is untouched |
| `InsertCommands.InsertRow` | ReleaseBox.Data.Sqlite/Commands/InsertDirectoryEntity.cs:11-15 | on success the new id is returned and exactly that row is added; otherwise the store is unchanged, and each of NOT NULL, CHECK, UNIQUE and foreign key fails exactly when the earlier checks pass and it does not |
| `InsertCommands.ForeignKeyTargetsAsWritten` | ReleaseBox.Data.Sqlite/DatabaseInitializer.cs:57 | the engine accepts every existing directory as parent, and for a directory row also the row's own new id |
| `InsertCommands.InsertAsWritten` | ReleaseBox.Data.Sqlite/Commands/InsertDirectoryEntity.cs:30-38 | as the engine runs it, a success has an existing parent or is a directory naming itself |
| `InsertCommands.Insert` | ReleaseBox.Data.Sqlite/Commands/InsertDirectoryEntity.cs:11-15 | the intended insert: a success has an existing parent, and a foreign-key fault means the parent is missing |
| `InsertCommands.InsertDirectoryEntity` | ReleaseBox.Data.Sqlite/Commands/InsertDirectoryEntity.cs:30-38 | as the engine runs it: the file table is untouched; a success returns an id that was not a directory before, the table gains exactly that row, and its parent is an old directory or the new row itself |
| `InsertCommands.InsertFileEntity` | ReleaseBox.Data.Sqlite/Commands/InsertFileEntity.cs:30-38 | as the engine runs it: the directory table is untouched; a success returns an id that was not a file before, the table gains exactly that row, and its parent is an existing directory |
| `InsertCommands.NamesNonBlankWithRow` | ReleaseBox.Data.Sqlite/DatabaseInitializer.cs:55 | adding a row keeps the name check exactly when its name passes |
| `InsertCommands.SiblingNamesUniqueWithRow` | ReleaseBox.Data.Sqlite/DatabaseInitializer.cs:56 | adding a row keeps uniqueness exactly when no sibling has its name |
| `InsertCommands.InsertRowOkIff` | ReleaseBox.Data.Sqlite/Commands/InsertDirectoryEntity.cs:11-15 | the statement succeeds exactly when none of its four checks fails |
| `InsertCommands.ParentsExistWithDirectory` | ReleaseBox.Data.Sqlite/DatabaseInitializer.cs:57 | a new directory row satisfies the self-referencing foreign key exactly when its parent is an old directory or the row itself |
| `InsertCommands.ValidWithDirectory` | ReleaseBox.Data.Sqlite/DatabaseInitializer.cs:51-60 | adding a directory row keeps the schema constraints exactly when its name is valid, unique among siblings, and its parent is a directory of the new table |
| `InsertCommands.ValidWithFile` | ReleaseBox.Data.Sqlite/DatabaseInitializer.cs:62-71 | adding a file row keeps the schema constraints exactly when its name is valid, unique among siblings, and its parent is a directory |
| `InsertCommands.InsertAsWrittenAcceptsExactlyValidCandidates` | ReleaseBox.Data.Sqlite/DatabaseInitializer.cs:51-71 | as written, an insert succeeds exactly when the store with the new row meets every schema constraint |
| `InsertCommands.SelfParentAcceptedAsWritten` | ReleaseBox.Data.Sqlite/DatabaseInitializer.cs:57 | in the root-only store, the insert as written accepts directory 1 with parent 1, and the result is no longer a tree |
| `InsertCommands.SelfParentRefused` | ReleaseBox.Data.Sqlite/Repositories/DirectoryRepository.cs:38-44 | the intended insert refuses the same request as a missing parent and leaves the store alone |
| `InsertCommands.AddChildKeepsRooted` | ReleaseBox.Data.Sqlite/DatabaseInitializer.cs:57 | a new directory under an existing one keeps the tree shape |
| `InsertCommands.SelfParentBreaksRooted` | ReleaseBox.Data.Sqlite/DatabaseInitializer.cs:57 | a directory that is its own parent breaks the tree shape |
| `InsertCommands.AddFileKeepsRooted` | ReleaseBox.Data.Sqlite/DatabaseInitializer.cs:68 | a new file row keeps the tree shape |
| `InsertCommands.InsertDirectoryAcceptsExactlyValidRootedCandidates` | ReleaseBox.Data.Sqlite/Commands/InsertDirectoryEntity.cs:11-15 | the intended directory insert succeeds exactly when the store with the row meets the schema constraints and has the tree shape |
| `InsertCommands.InsertFileAcceptsExactlyValidRootedCandidates` | ReleaseBox.Data.Sqlite/Commands/InsertFileEntity.cs:11-15 | the intended file insert succeeds exactly when the store with the row meets the schema constraints and has the tree shape |
| `InsertCommands.InsertAcceptsExactlyValidRootedCandidates` | ReleaseBox.Data.Sqlite/DatabaseInitializer.cs:51-71 | either intended insert succeeds exactly when the new store meets the schema constraints and has the tree shape |
| `InsertCommands.InsertKeepsInvariants` | ReleaseBox.Data.Sqlite/DatabaseInitializer.cs:51-71 | whatever the intended insert returns, the schema constraints and tree shape survive |
| `InsertCommands.InsertAsWrittenKeepsInvariants` | ReleaseBox.Data.Sqlite/DatabaseInitializer.cs:51-71 | whatever the insert as written returns, the schema constraints survive, and the tree shape survives exactly unless it committed a directory that is its own parent |
| `InsertCommands.InvalidNameWinsOverMissingParent` | ReleaseBox.Data.Sqlite/DatabaseInitializer.cs:55-57 | an invalid name under a missing parent is reported as the name fault |
| `DeleteCommand.Selects` | ReleaseBox.Data.Sqlite/Commands/DeleteById.cs:9 | the `WHERE` clause: the row with that id exists and, under the root-protecting filter, has a parent; `DeleteCommand.RootFilterProtectsRoot` and `DeleteCommand.DeletingRootEmptiesStore` state the two readings |
| `DeleteCommand.Cascade` | ReleaseBox.Data.Sqlite/DatabaseInitializer.cs:57 | exactly the directories of the subtree are removed, the files whose parent lies in it go too, and every other row is kept as it was |
| `DeleteCommand.DeleteById` | ReleaseBox.Data.Sqlite/Commands/DeleteById.cs:9-25 | the count is at most 1 and is 1 exactly when the `WHERE` selects a row; a count of 0 leaves the store alone; a file delete removes that one row; a directory delete cascades |
| `DeleteCommand.CascadeKeepsValid` | ReleaseBox.Data.Sqlite/DatabaseInitializer.cs:57 | the cascade leaves no foreign key dangling and keeps every other schema constraint |
| `DeleteCommand.CascadeIsMinimal` | ReleaseBox.Data.Sqlite/DatabaseInitializer.cs:57 | any removal containing the directory that leaves no dangling parent contains the whole subtree |
| `DeleteCommand.RootOutsideOtherSubtrees` | ReleaseBox.Data.Sqlite/DatabaseInitializer.cs:77-80 | the parentless root lies in no other directory's subtree |
| `DeleteCommand.CascadeKeepsReachability` | ReleaseBox.Data.Sqlite/DatabaseInitializer.cs:57 | directories outside the removed subtree stay reachable from the root |
| `DeleteCommand.CascadeKeepsRooted` | ReleaseBox.Data.Sqlite/DatabaseInitializer.cs:57 | the cascade keeps the tree shape |
| `DeleteCommand.DeletingRootEmptiesStore` | ReleaseBox.Data.Sqlite/Commands/DeleteById.cs:9 | deleting the root by id alone counts one row and empties both tables |
| `DeleteCommand.RootFilterProtectsRoot` | ReleaseBox.Data.Sqlite/Repositories/DirectoryRepository.cs:77 | with the parent filter, deleting the root changes nothing and counts no row |
| `DeleteCommand.CascadeCountsOneRow` | ReleaseBox.Data.Sqlite/Commands/DeleteById.cs:21-25 | a directory with a child still counts one row, and the child is gone too |
| `DeleteCommand.DeleteByIdKeepsInvariants` | ReleaseBox.Data.Sqlite/Commands/DeleteById.cs:21-25 | the statement keeps the schema constraints and tree shape on either table and with either filter |
| `ListCommand.ChildIds` | ReleaseBox.Data.Sqlite/Commands/GetFileSystemEntriesByParent.cs:19 | exactly the rows whose parent is the requested id |
| `ListCommand.EntriesByParent` | ReleaseBox.Data.Sqlite/Commands/GetFileSystemEntriesByParent.cs:15-26 | every entry carries the requested parent; an entry is listed exactly when the table its tag names holds that row under that parent |
| `ListCommand.EntriesOfCardinality` | ReleaseBox.Data.Sqlite/Commands/GetFileSystemEntriesByParent.cs:17-19 | one half of the query has one entry per matching row |
| `ListCommand.EntriesCount` | ReleaseBox.Data.Sqlite/Commands/GetFileSystemEntriesByParent.cs:17-25 | the listing's size is the number of child directories plus child files; `UNION` merges nothing |
| `ListCommand.MissingParentListsNothing` | ReleaseBox.Data.Sqlite/Commands/GetFileSystemEntriesByParent.cs:19 | an id that is no directory lists nothing |
| `ListCommand.NoGrandchildren` | ReleaseBox.Data.Sqlite/Commands/GetFileSystemEntriesByParent.cs:19 | a grandchild directory is not listed with its grandparent |
| `SearchCommand.Pattern` | ReleaseBox.Data.Sqlite/Commands/SearchForFilesInSubtree.cs:55 | the bound pattern is the prefix followed by `%`, and `%` alone for a `null` prefix |
| `SearchCommand.MatchingIds` | ReleaseBox.Data.Sqlite/Commands/SearchForFilesInSubtree.cs:28-32 | a file is selected exactly when its parent lies in the closure and its name is `LIKE` the pattern |
| `SearchCommand.Capped` | ReleaseBox.Data.Sqlite/Commands/SearchForFilesInSubtree.cs:33 | `LIMIT` passes at most the limit, all rows when they fit, and all rows for a negative limit |
| `SearchCommand.EntityOf` | ReleaseBox.Data.Sqlite/Commands/SearchForFilesInSubtree.cs:63-67 | the row read back carries the file's id, parent and name |
| `SearchCommand.IdsOfAppend` | ReleaseBox.Data.Sqlite/Commands/SearchForFilesInSubtree.cs:61-68 | reading one more row adds its id to those read |
| `SearchCommand.ReadOneMore` | ReleaseBox.Data.Sqlite/Commands/SearchForFilesInSubtree.cs:61-68 | reading one more unread selected row keeps the rows distinct and faithful to the table |
| `SearchCommand.ReadRows` | ReleaseBox.Data.Sqlite/Commands/SearchForFilesInSubtree.cs:58-69 | the reader returns the requested number of distinct selected rows, each faithful to its file, and all of them when none are held back |
| `SearchCommand.SearchForFilesInSubtree` | ReleaseBox.Data.Sqlite/Commands/SearchForFilesInSubtree.cs:52-70 | the result has the capped number of rows, each a distinct selected file read faithfully, and is every selected file when the limit does not bind |
| `SearchCommand.MissingRootSelectsNothing` | ReleaseBox.Data.Sqlite/Commands/SearchForFilesInSubtree.cs:20 | a root id that is no directory selects no file |
| `SearchCommand.EmptyPrefixSelectsWholeSubtree` | ReleaseBox.Data.Sqlite/Commands/SearchForFilesInSubtree.cs:55 | an empty or `null` prefix selects every file of the subtree |
| `SearchCommand.PlainPrefixSelectsByStart` | ReleaseBox.Data.Sqlite/Commands/SearchForFilesInSubtree.cs:32 | for a prefix without wildcards, a file is selected exactly when it is in the subtree and its name starts with the prefix ignoring ASCII case |
| `SearchCommand.DivergingNameExcluded` | ReleaseBox.Data.Sqlite/Commands/SearchForFilesInSubtree.cs:32 | a name diverging from a plain prefix at or before its last character is not selected |
| `SearchCommand.FilesOutsideSubtreeExcluded` | ReleaseBox.Data.Sqlite/Commands/SearchForFilesInSubtree.cs:28-31 | a file whose parent is outside the subtree is never selected |
| `RepositoryResults.Failure` | ReleaseBox.Data.Sqlite/Repositories/DirectoryRepository.cs:41-43 | the built error carries the given code and exception |
| `RepositoryResults.CreateCode` | ReleaseBox.Data.Sqlite/Repositories/DirectoryRepository.cs:38-64 | foreign key gives `ParentNotFound`, unique `Duplicate`, check or not-null `Invalid`, any other fault `UnknownError`, each in both directions |
| `RepositoryResults.CountResult` | ReleaseBox.Data.Sqlite/Repositories/DirectoryRepository.cs:80-91 | success exactly at a count of one, returning the id; none is `EntityNotFound`; more is the caller's code; no exception is attached |
| `RepositoryResults.CreateCodeSeparatesConstraints` | ReleaseBox.Data.Sqlite/Repositories/DirectoryRepository.cs:52-58 | two different faults share a code only when they are the check and not-null faults |
| `DirectoryRepository.CreateDirectory` | ReleaseBox.Data.Sqlite/Repositories/DirectoryRepository.cs:27-69 | files are untouched; an error leaves the store unchanged and carries the fault; a success echoes the inputs with the new id, adds exactly that row, and has an existing parent or the new id as parent; an engine fault is `UnknownError` |
| `DirectoryRepository.SelfParentedDirectoryAccepted` | ReleaseBox.Data.Sqlite/Repositories/DirectoryRepository.cs:27-37 | in a valid store, creating a directory whose parent is its own new id succeeds, stores it as its own parent, and loses the tree shape |
| `DirectoryRepository.CreateDirectoryAsIntended` | ReleaseBox.Data.Sqlite/Repositories/DirectoryRepository.cs:27-69 | the corrected create: a success has an existing parent, and a valid new name under a missing parent is `ParentNotFound` |
| `DirectoryRepository.CreateDirectoryAsIntendedKeepsInvariants` | ReleaseBox.Data.Sqlite/Repositories/DirectoryRepository.cs:27-69 | every outcome of the corrected create keeps the schema constraints and the tree shape |
| `DirectoryRepository.DeleteDirectory` | ReleaseBox.Data.Sqlite/Repositories/DirectoryRepository.cs:71-98 | succeeds exactly when the filter selects the directory, returning its id and the cascaded store; otherwise the store is unchanged and the code is `EntityNotFound`, or `UnknownError` on an engine fault |
| `DirectoryRepository.CreateDirectoryClassifiesFaults` | ReleaseBox.Data.Sqlite/Repositories/DirectoryRepository.cs:38-64 | without an engine fault, each code is reported exactly when the name, the siblings and the parent make the first failing check that one; the parent check accepts an existing directory or the new id itself |
| `DirectoryRepository.BlankDirectoryNamesInvalid` | ReleaseBox.Data.Sqlite/Repositories/DirectoryRepository.cs:52-58 | `null`, `""` and `" "` are `Invalid` and change nothing |
| `DirectoryRepository.DuplicateKeepsEarlierDirectory` | ReleaseBox.Data.Sqlite/Repositories/DirectoryRepository.cs:45-51 | a taken name is `Duplicate`, and the earlier directory is still listed |
| `DirectoryRepository.CreatedDirectoryIsListed` | ReleaseBox.Data.Sqlite/Repositories/DirectoryRepository.cs:34-36 | a created directory appears in its parent's listing |
| `DirectoryRepository.DeletedDirectoryIsNotListed` | ReleaseBox.Data.Sqlite/Repositories/DirectoryRepository.cs:80-84 | after a delete, no directory of the removed subtree is listed anywhere |
| `DirectoryRepository.DeleteWithChildrenSucceeds` | ReleaseBox.Data.Sqlite/Repositories/DirectoryRepository.cs:77-84 | a directory with children is deleted successfully, and its children go with it |
| `DirectoryRepository.DeleteDirectoryNeverReportsManyRows` | ReleaseBox.Data.Sqlite/Repositories/DirectoryRepository.cs:88-91 | without an engine fault, the only error is `EntityNotFound` |
| `DirectoryRepository.RootDeletion` | ReleaseBox.Data.Sqlite/Repositories/DirectoryRepository.cs:77 | with the parent filter, deleting the root is `EntityNotFound`; without it, the store is emptied |
| `DirectoryRepository.CreateDirectoryKeepsInvariants` | ReleaseBox.Data.Sqlite/Repositories/DirectoryRepository.cs:27-69 | every outcome of a create keeps the schema constraints, and keeps the tree shape exactly unless it created a directory that is its own parent |
| `DirectoryRepository.DeleteDirectoryKeepsInvariants` | ReleaseBox.Data.Sqlite/Repositories/DirectoryRepository.cs:71-98 | every outcome of a delete keeps the schema constraints and tree shape |
| `FileRepository.CreateFile` | ReleaseBox.Data.Sqlite/Repositories/FileRepository.cs:28-65 | directories are untouched; an error leaves the store unchanged and carries the fault; a success echoes the inputs with the new id and adds exactly that row; an engine fault is `UnknownError` |
| `FileRepository.SearchFiles` | ReleaseBox.Data.Sqlite/Repositories/FileRepository.cs:67-84 | the store is unchanged; an error occurs exactly on an engine fault and is `UnknownError`; otherwise the command's rows come back with all their guarantees |
| `FileRepository.DeleteFile` | ReleaseBox.Data.Sqlite/Repositories/FileRepository.cs:86-113 | directories are untouched; succeeds exactly when the file exists, removing only it; otherwise the store is unchanged with `EntityNotFound`, or `UnknownError` on an engine fault |
| `FileRepository.CreateFileClassifiesFaults` | ReleaseBox.Data.Sqlite/Repositories/FileRepository.cs:39-60 | without an engine fault, each code is reported exactly when the first failing check is the one it names |
| `FileRepository.FileMayShareNameWithDirectory` | ReleaseBox.Data.Sqlite/DatabaseInitializer.cs:67 | a file may take the name of a sibling directory |
| `FileRepository.CreatedFileListedDeletedFileNot` | ReleaseBox.Data.Sqlite/Repositories/FileRepository.cs:33-37 | a created file is listed under its parent; a deleted file is listed nowhere |
| `FileRepository.DeleteFileNeverReportsMultipleMatches` | ReleaseBox.Data.Sqlite/Repositories/FileRepository.cs:95-106 | the file delete never reports `MultipleMatches` |
| `FileRepository.CreateFileKeepsInvariants` | ReleaseBox.Data.Sqlite/Repositories/FileRepository.cs:28-65 | every outcome of a create keeps the schema constraints and tree shape |
| `FileRepository.DeleteFileKeepsInvariants` | ReleaseBox.Data.Sqlite/Repositories/FileRepository.cs:86-113 | every outcome of a delete keeps the schema constraints and tree shape |
| `EntryRepository.GetFileSystemEntries` | ReleaseBox.Data.Sqlite/Repositories/FileSystemEntryRepository.cs:26-43 | the store is unchanged; an error occurs exactly on an engine fault and is `UnknownError`; otherwise the value is exactly the listing command's rows, every entry has the requested parent, and there is one per child |
| `EntryRepository.MissingParentGivesEmptyListing` | ReleaseBox.Data.Sqlite/Repositories/FileSystemEntryRepository.cs:33-35 | a parent that is no directory gives an empty `Ok`, not an error |
| `Scenario.ScenarioCreates` | ReleaseBox.Data.Sqlite/Repositories/DirectoryRepository.cs:34-36 | from an empty database, bootstrap, creating `D` under the root and `F` in `D` all succeed and leave exactly those three rows |
| `Scenario.ScenarioListing` | ReleaseBox.Data.Sqlite/Commands/GetFileSystemEntriesByParent.cs:15-26 | the root lists `D` and `D` lists `F` |
| `Scenario.ScenarioSearchFinds` | ReleaseBox.Data.Sqlite/Commands/SearchForFilesInSubtree.cs:17-34 | an empty-prefix search from the root selects `F` |
| `Scenario.ScenarioSearchMisses` | ReleaseBox.Data.Sqlite/Commands/SearchForFilesInSubtree.cs:32 | searching `D` for `zzz` does not select `F` |
| `Scenario.ScenarioDelete` | ReleaseBox.Data.Sqlite/Repositories/DirectoryRepository.cs:77-84 | deleting `D` succeeds and leaves only the root |

## Left out

- The HTTP layer (controllers and `ActionResult`) is not modelled; it only picks status codes. It has no arm for `MultipleMatches` when mapping delete codes, so such an error would throw there.
- Process bootstrap, logging, dependency injection, the services (field-for-field renames through `Result.Map`) and the connection-string provider are not modelled. Foreign keys are taken as enforced, as the provider configures.
- Connections, transactions, `async`/`await` and the `Task` lifting of `Result` (`ThenAsync`, `AsTask`, the `TaskExtensions` helpers) are not modelled. A transaction is an all-or-nothing update: a repository call returns either the command's new tables or the old ones.
- Concurrency, locking and every engine failure other than a constraint violation are folded into the `engineFault` parameter, which yields `UnknownError` and no change in the repositories, and a throw with the transaction rolled back in `DatabaseInitializer.InitializeTransaction`.
- Error descriptions are not modelled: every `Error` built by a repository carries the empty description. The exception attached to an error is the engine fault it was built from (`Fault`), not the .NET exception object.
- `Option.GetHashCode`, `Option.ToString`, `Error.ToString`, `Equals(object)` and `Option.Match` (whose two arms are side-effecting actions) are not modelled; `OnSome`, `OnNone`, `OnError` and `OnSuccess` are modelled without the side effect of their callback. `Result` is a class without an equality override, so C# compares two results by reference; the model compares them structurally (branch and carried value), and the `ExpectLaws` equalities are meant in that sense.
- The `out`-parameter overloads `IsOk(out value)`, `IsError(out value)` and `IsSome(out value)` are not modelled separately; a datatype's fields give the same access. The implicit conversions to `Option` and `Result` are the datatype constructors.
- The engine's id allocation policy is not modelled: the new id is any id that is not a key of its table.
- `InsertCommands.InsertRow`: the branch that throws when `RETURNING` yields no row (`InsertDirectoryEntity.cs:35-37`, `InsertFileEntity.cs:35-37`) cannot happen after a successful insert and is not modelled.
- The four-argument `DeleteById` constructor that the directory repository calls is not part of this model; its filter is the `RowFilter` parameter, and the root-protecting reading is `IdAndParentNotNull`.
- The declaration of the error-code enums is not part of this model; their members are taken from their uses in the repositories, tests and `ActionResult`.
- `SearchCommand.SearchForFilesInSubtree`: the engine's row order and its choice of rows under a binding `LIMIT` are not modelled; the method picks any distinct selected rows.
- `ListCommand.EntriesByParent`: the listing is a set, so the unspecified row order is not modelled; `UNION` removes duplicates anyway.
- SQLite's limit on the depth of cascading foreign-key actions and on recursive query depth is not modelled.

## Findings

| source | as written | input that shows it | evidently intended | confidence | as-written member | corrected member |
|---|---|---|---|---|---|---|
| ReleaseBox.Data.Sqlite/DatabaseInitializer.cs:57 | The directory table's foreign key references its own table, and `CreateDirectoryAsync` adds no check of its own. SQLite lets a new row satisfy a self-referencing foreign key with its own primary key, so a directory whose parent id equals its own new id is accepted. | The store holding only the root, where the engine's next id is 1: create a directory named `x` with parent 1. It is stored as its own parent, unreachable from the root, and cannot be listed or searched from the root. | The parent must already be a directory, so the create reports `ParentNotFound` and changes nothing. | medium; not executed | `DirectoryRepository.SelfParentedDirectoryAccepted` | `DirectoryRepository.CreateDirectoryAsIntended` |
