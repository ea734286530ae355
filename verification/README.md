# Verified model of library-olm

This project models the parts of library-olm that carry its meaning, and proves properties of them.

**The catalog store.** An FBC catalog is staged, normalized into seven linked tables, and queried.
`Content`, `Writer`, `WriterRefinement`, `Cascade` and `ContentWriter` model the tables with their keys,
cascades and id counters, and prove that the writer, which works on ids, refines a simple step on the
catalog by name. `Graphs`, `Query` and `Handles` model the queries. `Staging`, `Fbc`, `FbcMeaning`,
`FbcImport`, `FbcAnswers`, `PackageErrors` and `Importer` model the compiler from FBC packages to writer
operations and what its result answers. `Issuing`, `Store`, `ContentSchema`, `StoreReaders` and `StoreRuns` model the
transactions, the rebuild of the content schema, and runs; `RowIds` follows the ids of rows over runs.
`StoredCatalogs` joins it all: from the blobs that were staged to what the query methods yield in any later
state of the store; `StoreResolution` goes on to what the resolver makes of it. `Ingest` and `IngestRuns` are
the concurrent pipeline that fills the staging tables, as a state machine over the moves of its goroutines;
`IngestStaging` connects its runs to the tables they fill.

**Resolution and ordering.** `Release` and `Ordering` model release texts and comparators (identifiers as in
sections 9 and 11 of Semantic Versioning 2.0.0, except that an empty release sorts lowest). `Resolver` and
`Resolution` model catalog selection, the union over graphs, the filter and the sort.

**Rendering and the schema collector.** `Validators`, `Generators`, `Rbac`, `Names` and `Deployment` model the
registry+v1 pipeline; `SchemaCollector` the closure over `$ref` pointers in recursive JSON.

Code that changes state step by step is a class or a method with loops, proved against a function or a
predicate that says what it must achieve; the lemmas are about those. SQL is taken by these rules:
`INSERT OR IGNORE` skips a row on a uniqueness failure, a scalar subquery picks some matching row or none,
`ON DELETE CASCADE` is a closure, AUTOINCREMENT ids are not reused while the table lives, and a transaction is
atomic. `refused`, `budget` and `Setup.refuses` say which statements the engine refuses.

Semantic-version parsing, range matching and image references are functions given as parameters
(`SemverLib`, `FbcLib`); the results that need it assume that the empty release text parses.

What the proofs found, each with its exact condition:

- A package that refers to a bundle id without declaring it, and comes first to enter it, hides the bundle of
  that id from every listing (`ListsAllExactly`, `ReferenceShadows`, `HiddenInTables`).
- The subquery for the starting bundle has no catalog filter; explicit edges can be lost when another catalog
  stores the same bundle id (`ForeignIdExact`, `SharedIdLosesEdge`).
- A graph with children answers for its descendants only (`CompositeExactly`, `CompositeOffersExactly`,
  `UnionListsExactly`, `UnionOffersExactly`, `UnionNeedsLeaves`).
- Asking for the graph or package of the empty name finds the first one there is (`QueryGraphNode`,
  `EmptyNameFinds`).
- A list of skips with a comma in a name, or consisting of one empty name, does not survive staging
  (`SkipsRoundTrip`, `SkipsLost`).
- One channel that lists a bundle twice, a key that two blobs claim or an empty deprecation message makes every
  ingest of the catalog fail, not only its package (`SucceedsExactly`, `OneBlobFailsAll`).
- After a writer failure the ingest pipeline can block until its context is cancelled (`StuckExactly`,
  `BlockedIsReached`).
- A schema rebuild that stops midway may leave a database that never opens again, or digests for content
  that is gone (`StoppingPoints`, `NeverOpensHappens`, `StaleDigestExactly`, `StaleDigestHappens`).
- Narrowing a selected store with the selector that matches nothing shows everything (`AndSelectorExactly`,
  `NarrowingToNothing`).
- Accepted targets that repeat the all-namespaces target produce roles in no usable namespace
  (`RepeatedAllLoses`, `AcceptedMeaning`, `AcceptedLoses`).
- Resolved bundles are documented as sorted by version; the code compares package names first
  (`ResolvedDescends`, `NamesOutrankVersions`).
- The order in which paths are given can decide what is resolved (`PathOrderIrrelevant`,
  `IncoherentOrderMatters`), though not on the graphs of a store (`StoredOrderIrrelevant`).
- A generated name can have 64 characters (`ObjectNameLength`, `SixtyFourCharacters`), two deployments whose
  names differ in a dot and a dash share a webhook service name (`ServiceNamesCollide`, `TwinServices`,
  `TwinServicesHappen`), a webhook without a positive container port names a port its service does not have
  (`ServiceEmitted`, `PortZeroUnserved`), and two webhooks that disagree on the target of one port give their
  service two ports of one name (`PortNamesDiffer`, `PortNamesClash`).

`dafny verify dfyconfig.toml` checks everything.

## Model

| member | source | states |
|---|---|---|
| `StoredCatalogs.DeclaredChannelAnswers` | examples/query_operatorhubio/main.go:109-190 | from FBC blobs to what the store yields in every later state of any run: a channel blob without commas in its skips, of a package that is not skipped, validates and has usable channel names, is found by its names; ListBundles and Successors then yield, as whole rows and each once, what the two next rows say, whatever the order of the blobs and of the package scan |
| `StoredCatalogs.AskListing` | catalog/v1/sqlite/query.go:209-264 | for every channel that an import wrote, also of a package that failed later on: GetPackage, GetGraph and ListBundles find it and yield, by ascending id and each once, exactly its entries whose row is not a phantom, with the rows the import left |
| `StoredCatalogs.AskSuccessors` | catalog/v1/sqlite/query.go:266-380 | likewise Successors yields exactly the entries that replace the starting bundle, skip it or range over its version; only if another catalog stores the starting id may it be the ranging entries alone |
| `StoredCatalogs.HiddenInTables` | catalog/v1/sqlite/writer.go:44-44 | there are valid tables, written by an import of two packages, in which a channel with one entry lists nothing |
| `StoredCatalogs.FbcImporter` | catalog/v1/fbc/importer.go:49-87 | every FBC import, with whatever an extension sets afterwards, is an importer the store results apply to |
| `StoredCatalogs.StoredIsReadable` | catalog/v1/sqlite/query.go:382-404 | in every state of every run, a catalog whose content came from an FBC import has no stored version, release or range text that makes a query fail or panic, and only childless graphs hold content |
| `StoredCatalogs.FbcImportIssues` | catalog/v1/fbc/importer.go:49-87 | every FBC import, with whatever packages skipped or failing midway, is a sequence of writer operations with the same outcome |
| `WriterRefinement.StepRefines` | catalog/v1/sqlite/writer.go:42-215 | each of the nine writer operations, failing or not, keeps the tables valid and does to the catalog by name (without ids) what the name-level step says, with the same result |
| `WriterRefinement.StepIsolates` | catalog/v1/sqlite/writer.go:42-215 | no writer operation for one catalog changes, adds or removes a row or link of another catalog, ids included |
| `ContentWriters.ContentWriter.InsertBundle` | catalog/v1/sqlite/writer.go:42-51 | the method takes the specified step: an existing id of the catalog is skipped (INSERT OR IGNORE) |
| `ContentWriters.ContentWriter.CreateGraph` | catalog/v1/sqlite/writer.go:72-103 | fails on an empty or rejected path, a missing parent or a taken path, and otherwise adds one row under the parent |
| `ContentWriters.ContentWriter.AddBundleToGraph` | catalog/v1/sqlite/writer.go:105-118 | fails for an unknown graph or a repeated membership; an unknown bundle adds nothing |
| `ContentWriters.ContentWriter.AddEdge` | catalog/v1/sqlite/writer.go:120-136 | adds the edge once; an unknown end adds nothing and is no error |
| `ContentWriters.ContentWriter.AddPredecessorRange` | catalog/v1/sqlite/writer.go:138-155 | fails for an unknown graph or bundle, a range that does not parse, or a second range of one bundle |
| `ContentWriters.ContentWriter.SetBundleProperty` | catalog/v1/sqlite/writer.go:157-170 | upserts the property, or fails for an unknown bundle or an empty value |
| `ContentWriters.ContentWriter.SetGraphProperty` | catalog/v1/sqlite/writer.go:172-189 | upserts the property, or fails for an unknown graph or an empty value |
| `ContentWriters.ContentWriter.SetGraphDeprecation` | catalog/v1/sqlite/writer.go:191-204 | sets the message; an unknown graph is no error, an empty message is refused by the check constraint |
| `ContentWriters.ContentWriter.SetBundleDeprecation` | catalog/v1/sqlite/writer.go:206-215 | the same for a bundle |
| `ContentWriters.ContentWriter.DeleteGraphs` | catalog/v1/sqlite/content.go:22-24 | the engine's cascade loop deletes exactly the least set of graphs closed under parent ids |
| `ContentWriters.ContentWriter.DeleteAll` | catalog/v1/sqlite/writer.go:30-40 | afterwards the catalog has no row in any table, its view is empty, and every other catalog is unchanged |
| `ContentWriters.GraphPath` | catalog/v1/sqlite/writer.go:12-19 | accepts exactly the paths of non-empty, slash-free segments and joins them |
| `ContentWriters.GraphPathInjective` | catalog/v1/sqlite/writer.go:12-19 | on non-empty accepted paths, equal texts mean equal paths |
| `Cascade.DeleteContentExact` | catalog/v1/sqlite/content.go:15-82 | deleting a catalog's graphs and bundles removes exactly its rows from all seven tables, keeps the tables valid, every other catalog's rows with their ids, and the id counters |
| `Cascade.CascadeStays` | catalog/v1/sqlite/content.go:22-24 | in valid tables the cascade closure of a catalog's graphs is that catalog's graphs |
| `Content.SameView` | catalog/v1/sqlite/content.go:15-82 | what a catalog holds by name depends only on its own rows |
| `Graphs.DescendantsByPath` | catalog/v1/sqlite/query.go:225-237 | following parent ids down from a graph reaches exactly the same-catalog graphs whose path strictly extends its own |
| `Graphs.DescendantIds` | catalog/v1/sqlite/query.go:283-287 | the recursive query with UNION ALL ends and yields every descendant exactly once |
| `Graphs.PrefixesStored` | catalog/v1/sqlite/writer.go:72-103 | the graphs form a forest over paths: a path splits into accepted segments, and every proper prefix is the path of a row of the same catalog with a smaller id |
| `Query.StreamBundleRows` | catalog/v1/sqlite/query.go:239-264 | rows come out parsed in order, up to a panic |
| `Query.QuerySuccessorsStreaming` | catalog/v1/sqlite/query.go:306-380 | explicit rows first, then ranged rows not seen yet, with errors for bad ranges, up to a panic |
| `Query.RangePartExact` | catalog/v1/sqlite/query.go:330-380 | with parseable texts the ranged part yields each matching row once although one bundle may have several ranges |
| `Query.QueryBundles` | catalog/v1/sqlite/query.go:216-237 | the rows are streamed by ascending bundle id, up to a panic; when the catalog's texts parse, each member bundle that has a version is yielded exactly once, and nothing else |
| `Query.QuerySuccessors` | catalog/v1/sqlite/query.go:266-304 | when the texts parse, Successors yields, each once, exactly the targets of edges from some row with the starting id and the bundles whose range admits the version |
| `Handles.QueryGraphNodes` | catalog/v1/sqlite/query.go:160-207 | each row of that parent and name becomes one handle, by ascending name, composite exactly when it has children |
| `Handles.QueryGraphNode` | catalog/v1/sqlite/query.go:160-214 | finding a graph by parent and name is finding the row at the joined path; the empty name finds the least-named child, so the answer is the graph of that name exactly when the name is not empty or there is no child |
| `Handles.EmptyNameFinds` | catalog/v1/sqlite/query.go:160-214 | concrete valid tables without a package of the empty name, where asking for it finds package "p" |
| `Handles.GetChannel` | catalog/v1/sqlite/query.go:122-124 | GetPackage and then GetGraph find exactly the row at the two names' path |
| `Handles.ListBundles` | catalog/v1/sqlite/query.go:96-112 | the handle's answer is the answer over its own graph, or over all descendants for a composite, by ascending id |
| `Handles.Successors` | catalog/v1/sqlite/query.go:100-116 | the same for successors, for whatever row the subquery for the starting bundle picks |
| `Handles.OwnIdAnswers` | catalog/v1/sqlite/query.go:266-304 | where no other catalog stores the starting id, the answer is exactly the one for the catalog's own bundle |
| `Handles.CompositeIsUnion` | catalog/v1/sqlite/query.go:104-116 | when only childless graphs hold content, a composite's listing and successors are the union of its children's, and of the leaves under it, at any depth |
| `Handles.CompositeExactly` | catalog/v1/sqlite/query.go:225-237 | in general a composite lists the union of what its children list and what its children hold themselves |
| `Handles.CompositeOffersExactly` | catalog/v1/sqlite/query.go:281-304 | and offers the union of what its children offer and what their own edges and ranges give |
| `Handles.UnionListsExactly` | catalog/v1/sqlite/query.go:225-237 | so a composite lists the union of its children's listings exactly when whatever a child holds itself is also listed by some child |
| `Handles.UnionOffersExactly` | catalog/v1/sqlite/query.go:281-304 | and likewise for successors |
| `Handles.UnionNeedsLeaves` | catalog/v1/sqlite/query.go:225-237 | concrete valid tables where a composite lists a bundle none of its children lists |
| `Handles.ForeignIdExact` | catalog/v1/sqlite/query.go:266-304 | whatever row the unfiltered subquery picks, the explicit edges are right exactly when there are none to find or no other catalog stores that bundle id |
| `Handles.SharedIdLosesEdge` | catalog/v1/sqlite/query.go:266-304 | concrete valid tables with one id in two catalogs, where the other catalog's row is picked and an edge is lost |
| `Fbc.ValidateBundles` | catalog/v1/fbc/internal/handler_olm_package.go:113-148 | accepts exactly when every bundle has a parseable version, an empty or parseable release and a valid image reference |
| `Fbc.ValidateEntries` | catalog/v1/fbc/internal/handler_olm_package.go:155-173 | reports exactly the entries whose bundle the package does not have |
| `Fbc.WriteChannelSuccessors` | catalog/v1/fbc/internal/handler_olm_package.go:208-235 | the loop issues replaces edges, skips edges (each with its phantom insert) and the skip range, entry by entry, until one fails |
| `Fbc.WriteDeprecations` | catalog/v1/fbc/internal/handler_olm_package.go:175-206 | each deprecation goes to the package, channel or bundle it names; other schemas are ignored |
| `Fbc.Normalize` | catalog/v1/fbc/internal/handler_olm_package.go:36-111 | a package that fails validation leaves the tables as they were; any other runs its compiled operations up to the first failure |
| `FbcMeaning.CompileRuns` | catalog/v1/fbc/internal/handler_olm_package.go:78-111 | on a catalog without graphs of the package, a validated package is written whole exactly when its names can be path segments, and in either case the catalog afterwards is the one the package denotes: declarations, the channels before the first bad name, the deprecations before the first bad one |
| `FbcMeaning.DenotesNodes` | catalog/v1/fbc/internal/handler_olm_package.go:78-111 | what a package denotes in the graph forest: everything that was there, and exactly its own graph, empty, and one per good channel with the declared members, edges and ranges |
| `FbcMeaning.DenotesBundle` | catalog/v1/fbc/internal/handler_olm_package.go:83-98 | and in the bundle rows: existing rows stay, new ids are exactly those it declares or its good channels refer to, each declared or phantom, under the last message aimed at it |
| `FbcMeaning.LastMessageStays` | catalog/v1/fbc/internal/handler_olm_package.go:175-206 | the deprecation message stored is the last one aimed at the package, channel or bundle, and the old one where none is |
| `FbcImport.ImportKeeps` | catalog/v1/fbc/internal/normalize.go:34-50 | every import, whatever fails: packages hold nothing themselves, stored texts parse, graphs lie in imported packages, rows once written stay, new ids are ones a package that was not skipped mentions |
| `FbcImport.ImportMeans` | catalog/v1/fbc/internal/normalize.go:15-51 | the meaning of a whole import with skipped, invalid and half-written packages: its graphs are exactly those the packages place, its rows exactly the first one entered for each id |
| `FbcImport.FirstRowIs` | catalog/v1/sqlite/writer.go:42-51 | that row is the one of the first package that enters the id, declared or phantom, under the last message aimed at the id by that package or a later one |
| `FbcImport.CompletedExactly` | catalog/v1/fbc/internal/normalize.go:34-50 | a package is written whole exactly when it is not skipped, validates, and gives its graphs names that can be path segments, however the other packages fare |
| `FbcAnswers.PackageGraph` | catalog/v1/fbc/internal/handler_olm_package.go:78-81 | a package that gets that far has its own graph in the tables, empty, under the last message aimed at it |
| `FbcAnswers.ChannelSuccessors` | catalog/v1/sqlite/query.go:266-380 | after an import the successor rows of a written channel are, as whole rows, exactly its entries that replace the starting bundle, skip it or range over its version |
| `FbcAnswers.ChannelListing` | catalog/v1/sqlite/query.go:216-223 | and its listed rows exactly its entries whose row is not a phantom |
| `FbcAnswers.ListsAllExactly` | catalog/v1/sqlite/writer.go:44-44 | a written channel lists an entry exactly unless the first package that enters its id does not declare it; so it lists all its entries exactly when that happens to none |
| `FbcAnswers.OwnChannel` | catalog/v1/sqlite/writer.go:44-44 | where no earlier package enters an id of its entries, a channel lists all of them, and what it lists and offers are the rows its own package declares |
| `FbcAnswers.ReferenceShadows` | catalog/v1/sqlite/writer.go:44-44 | two packages, one of which replaces a bundle of the other: in one order the second channel lists its entry, in the other it lists nothing |
| `FbcAnswers.ImportIsReadable` | catalog/v1/sqlite/query.go:382-404 | after every import parseBundleRow neither fails nor panics on the catalog, and only childless graphs hold content |
| `Staging.SkipsRoundTrip` | catalog/v1/fbc/internal/accessor.go:230-232 | skips joined at staging and split at reading come back exactly when none has a comma and the list is not one empty name |
| `Staging.SkipsLost` | catalog/v1/fbc/internal/accessor.go:230-232 | one empty name comes back as no name, and "a,b" as two names |
| `Staging.StagingKeepsChannels` | catalog/v1/fbc/internal/ingest.go:144-169 | whatever the order of the blobs, every channel reads back with its entries, and the staging keys hold |
| `Staging.DeclaredReadsBack` | catalog/v1/fbc/internal/accessor.go:210-241 | channels whose skips survive are read back word for word |
| `Staging.Entries` | catalog/v1/fbc/internal/accessor.go:210-241 | the accessor's scan yields the channel's rows in order with the skips split |
| `Importer.NormalizePackages` | catalog/v1/fbc/internal/normalize.go:34-50 | every staged package not skipped goes through the handler, one error is recorded for each that fails, other catalogs stay put |
| `Importer.Finalize` | catalog/v1/fbc/importer.go:89-120 | the extension's property writes are issued for exactly the staged, unskipped packages, graph paths below the package, and an error is recorded for exactly those it fails for |
| `Importer.FinishedIsImported` | catalog/v1/fbc/internal/finalize.go:9-26 | property writes change nothing but properties of the catalog, so every result about imports holds after them |
| `Importer.Import` | catalog/v1/fbc/importer.go:49-87 | normalize skips ingest failures, finalize skips both, the result reports every recorded error; afterwards the catalog holds what the packages mean, properties aside, and no other catalog has moved |
| `Importer.PackagesPartition` | catalog/v1/fbc/importer.go:61-80 | every staged package is exactly one of skipped, failed or wholly written; it fails exactly when it does not validate or has a name no graph can have; one that fails validation writes nothing |
| `Importer.StagedBlobs` | catalog/v1/fbc/importer.go:49-60 | packages read from any staged blobs are distinct and well keyed, which the import results require |
| `PackageErrors.MergePackageErrors` | catalog/v1/fbc/error.go:35-58 | nil exactly when nothing was recorded; otherwise one error per package, packages ascending, each recorded error as often as recorded, texts sorted |
| `Stores.Store.Set` | catalog/v1/sqlite/sqlite.go:83-196 | fails exactly on a refused statement, a new catalog without URI, a fatal import or a reserved-label conflict, and then nothing changes; otherwise entry, labels and content are the specified ones and the returned catalog is their snapshot |
| `Stores.Store.Delete` | catalog/v1/sqlite/sqlite.go:202-217 | on success the entry, its labels and, by the cascade, its content are gone; on failure nothing changes |
| `Stores.ReplaceLabels` | catalog/v1/sqlite/sqlite.go:158-177 | the catalog's labels become the given ones without the reserved key; other catalogs' labels stay |
| `Issuing.ApplyAllRefines` | catalog/v1/sqlite/sqlite.go:136-156 | all operations of an importer, failing ones passed over, keep the tables valid and act on the catalog by name alone |
| `StoreRuns.SetIsolates` | catalog/v1/sqlite/sqlite.go:83-196 | a committed Set leaves every other catalog's entry, labels and rows as they were, ids included |
| `StoreRuns.DeleteExact` | catalog/v1/sqlite/sqlite.go:202-217 | Delete removes everything stored about the catalog and nothing else |
| `StoreRuns.RunInvariant` | catalog/v1/sqlite/sqlite.go:26-196 | in every state of every run of Set, Delete and complete opens: sound tables, every row in an existing catalog, the reserved label equal to the name, and digest and content those of the last committed import |
| `StoreRuns.DigestMeansContent` | catalog/v1/sqlite/sqlite.go:136-156 | a non-empty digest means some committed Set of the run stored it, and the content is exactly what that import wrote, across rebuilds |
| `StoreRuns.RunIsolates` | catalog/v1/sqlite/sqlite.go:83-217 | over any stretch that neither names a catalog nor rebuilds, nothing stored about it changes |
| `RowIds.IdsKeepTheirMeaning` | catalog/v1/sqlite/content.go:15-29 | between two states of a run without a rebuild between them, a row id stands for the same graph or bundle, whatever was deleted and written in between |
| `ContentSchema.OpenStore` | catalog/v1/sqlite/sqlite.go:26-69 | opens exactly when the version is current, or is stale with no unknown content table and the whole rebuild, tables and indexes, completes; otherwise it leaves the database at the statement it reached |
| `ContentSchema.StoppingPoints` | catalog/v1/sqlite/sqlite.go:43-60 | the rebuild stopped after n of its twenty-five statements: up to eight, the next open starts over to the same end; from nine to twenty-three, every later open fails; after the version row, the next open takes the empty tables for current |
| `ContentSchema.NeverOpensHappens` | catalog/v1/sqlite/sqlite.go:43-60 | a store of an earlier version with one catalog: stopped once all tables are there, its rebuild leaves a database no version opens again |
| `ContentSchema.StaleDigestExactly` | catalog/v1/sqlite/sqlite.go:56-60 | a stopped rebuild leads to a store with digests of vanished content exactly when it stopped between the version row and the clearing of a non-empty digest |
| `ContentSchema.StaleDigestHappens` | catalog/v1/sqlite/sqlite.go:56-60 | the same store, stopped just before the digests are cleared: the next open succeeds with no content and the old digest |
| `StoreReaders.List` | catalog/v1/sqlite/sqlite.go:219-252 | every catalog once, by ascending name, each as its own snapshot |
| `StoreReaders.ListSelected` | catalog/v1/sqlite/sqlite.go:362-374 | exactly the listed catalogs whose labels the selector matches, in order |
| `StoreReaders.AndSelectorExactly` | catalog/v1/sqlite/sqlite.go:380-383 | narrowing is conjunction for given labels exactly when the second selector has requirements or the first already refuses them |
| `StoreReaders.NarrowedMatches` | catalog/v1/sqlite/sqlite.go:376-383 | a chain of Select calls with real requirements shows what every selector matches |
| `Ingest.StepKeeps` | catalog/v1/fbc/internal/ingest.go:63-127 | every step of every producer, the writer and the environment keeps the pipeline invariant |
| `IngestRuns.RunInvariant` | catalog/v1/fbc/internal/ingest.go:63-127 | in every state of every interleaving the rows sent are committed, batch and channel in that order, per producer in order, and the committed rows are accepted batches |
| `IngestRuns.SuccessIsComplete` | catalog/v1/fbc/internal/ingest.go:104-118 | on success every row of every producer is committed once in its order, every package fault is recorded, and there was no error without a package |
| `IngestRuns.FailureKeepsWholeBatches` | catalog/v1/fbc/internal/ingest.go:277-308 | on a writer failure the committed rows are whole accepted batches at the front of what was sent, and the next batch is the one refused |
| `IngestRuns.StuckExactly` | catalog/v1/fbc/internal/ingest.go:120-127 | before it returns, the pipeline cannot move exactly when the writer has failed, the context is live, the channel is full, and each remaining producer has a row to send |
| `IngestRuns.BlockedIsReached` | catalog/v1/fbc/internal/ingest.go:120-127 | a run reaches that state: 500 rows refused as a batch, 256 more in the channel, one waiting |
| `IngestRuns.CancelFrees` | catalog/v1/fbc/internal/ingest.go:120-127 | cancelling the context lets a blocked pipeline move again |
| `IngestRuns.RunsEnd` | catalog/v1/fbc/internal/ingest.go:63-127 | no interleaving takes more steps than the work at the start |
| `IngestRuns.BatchWriter` | catalog/v1/fbc/internal/ingest.go:277-308 | the loop commits whole batches until one is refused and the rest at the end; success commits everything |
| `IngestStaging.StagedExactly` | catalog/v1/fbc/internal/ingest.go:129-219 | empty staging tables take a list of blobs exactly when no two claim the same package, channel or bundle key, no channel lists a bundle twice, and no deprecation message is empty |
| `IngestStaging.FitsPermuted` | catalog/v1/fbc/internal/ingest.go:129-219 | whether they do does not depend on the order of the blobs |
| `IngestStaging.CommittedAreStaged` | catalog/v1/fbc/internal/ingest.go:277-308 | in every state of every interleaving, whatever has failed, the committed rows are blobs the tables took one after the other |
| `IngestStaging.SucceedsExactly` | catalog/v1/fbc/internal/ingest.go:63-118 | with a live context, no walk failed and no batch lost to the engine, the pipeline succeeds exactly when the blobs of all producers fit the tables: every interleaving succeeds or none does |
| `IngestStaging.SuccessStagesAll` | catalog/v1/fbc/internal/ingest.go:63-118 | on success the committed rows are exactly the blobs that were met, in an order the tables take, which is what the results about imports of staged blobs start from |
| `IngestStaging.OneBlobFailsAll` | catalog/v1/fbc/internal/ingest.go:144-169 | one blob the tables cannot take, such as a channel that lists a bundle twice, keeps every run from succeeding, whatever the other packages are |
| `Resolver.GroupByPriority` | resolver/v1/resolve.go:157-177 | non-empty groups of one priority, strictly descending, whose concatenation is a permutation of the input |
| `Resolver.SelectPackage` | resolver/v1/resolve.go:123-155 | a catalog is chosen exactly when it alone has the package at the highest priority that has it; several give the sorted list of their names; none gives nothing |
| `Resolution.WalkPath` | resolver/v1/resolve.go:196-210 | the graph the path names from the root, or none |
| `Resolution.CollectBundles` | resolver/v1/resolve.go:212-234 | fails exactly when a stream fails; otherwise each id once, by its first answer |
| `Resolution.FilterByConstraint` | resolver/v1/resolve.go:265-278 | exactly the bundles whose version satisfies the constraint, ids still once |
| `Resolution.BundleOrderComparator` | resolver/v1/resolve.go:236-263 | both sort orders are antisymmetric in sign and transitive |
| `Resolution.NonDeprecatedFirst` | resolver/v1/resolve.go:240-246 | with the preference no deprecated bundle stands before a non-deprecated one |
| `Resolution.SameNameDescends` | resolver/v1/resolve.go:249-251 | bundles of one package name, and of one deprecation class if that is preferred, are in descending order of version and release |
| `Resolution.DescendsExactly` | resolver/v1/resolve.go:236-263 | a sorted list is in descending order of version and release, within each deprecation class if that is preferred, exactly when no greater package name goes with a lower version |
| `Resolution.ResolvedDescends` | resolver/v1/resolve.go:86-121 | the same of what Resolve returns, in terms of the bundles found |
| `Resolution.NamesOutrankVersions` | resolver/v1/resolve.go:249-251 | a package whose every resolution violates the documented order, and the list it resolves to |
| `Resolution.Resolve` | resolver/v1/resolve.go:86-121 | the result is an ambiguity, nothing, a stream error, or the chosen catalog's bundles: each id once, those of the union that satisfy the constraint, in the order asked for |
| `Resolution.OfferedExactly` | resolver/v1/resolve.go:86-121 | the ids of a resolved list are exactly those found |
| `Resolution.PathOrderIrrelevant` | resolver/v1/resolve.go:179-234 | no permutation or repetition of the paths changes which ids are found exactly when the first answers of any two of the graphs for one id agree on the constraint |
| `Resolution.PathOrderErrors` | resolver/v1/resolve.go:179-194 | nor whether a stream error ends the resolution |
| `Resolution.IncoherentOrderMatters` | resolver/v1/resolve.go:212-234 | without that agreement the order of two channels decides whether a bundle is found |
| `StoreResolution.StoredOrderIrrelevant` | resolver/v1/resolve.go:179-234 | on the graphs of one stored catalog the order and repetition of paths is irrelevant without any hypothesis |
| `StoreResolution.PackageRows` | catalog/v1/sqlite/query.go:225-237 | a written package, as a graph with channels, lists or offers exactly what some channel written for it has to offer |
| `StoreResolution.ImportResolved` | resolver/v1/resolve.go:86-121 | from an import to the resolver, for all paths, orders and repetitions: no stream fails, and the bundles found are exactly those that satisfy the constraint and are listed by a channel the paths stand for (all written ones if there is no path or one is empty), or, from an installed bundle whose id no other catalog stores, replace it, skip it or range over its version there |
| `StoreResolution.ChannelResolved` | resolver/v1/resolve.go:86-121 | so the path of one written channel finds exactly the satisfying ones among its entries that are no phantoms, or among those that follow the installed bundle, phantoms with the zero version included |
| `StoreResolution.HandleExists` | catalog/v1/sqlite/query.go:160-207 | every row of valid tables has a handle in the sense of the two results above |
| `Releases.ParseRelease` | bundle/v1/release.go:27-41 | the loop accepts exactly the empty text and the dot-separated lists of valid identifiers |
| `Releases.PrintParsed` | bundle/v1/release.go:86-95 | the printed form of a parsed release is its text |
| `Releases.ParsePrinted` | bundle/v1/release.go:27-41 | the printed form of a release parses back to it |
| `Releases.ParsedInjective` | bundle/v1/release.go:27-41 | no two accepted texts are the same release |
| `Releases.Compare` | bundle/v1/release.go:58-83 | the loop computes the lexicographic comparison |
| `Releases.ReleasesComparator` | bundle/v1/release.go:58-83 | releases are totally ordered |
| `Releases.CompareReleasesZero` | bundle/v1/release.go:58-83 | equal exactly for the same identifiers |
| `Releases.PrefixFirst` | bundle/v1/release.go:70-82 | a release, the empty one included, sorts before each of its proper extensions |
| `Releases.VersionReleasesComparator` | bundle/v1/versionrelease.go:15-20 | releases refine any order of versions into an order; ties are tied versions with equal releases |
| `Releases.NamesComparator` | bundle/v1/bundle.go:43-48 | named versions are ordered |
| `SchemaCollector.Collector.CollectSchemaWithDependencies` | bundle/registry/v1/internal/bundle/gen-config-schema/main.go:411-420 | terminates on every spec; from any set collected so far it adds the schema, finishes every schema it adds, and adds only what the schema needs |
| `SchemaCollector.Collector.FindReferences` | bundle/registry/v1/internal/bundle/gen-config-schema/main.go:423-440 | covers every resolvable reference at any depth, whatever the order of the map |
| `SchemaCollector.Collector.ProcessRef` | bundle/registry/v1/internal/bundle/gen-config-schema/main.go:443-467 | follows a prefixed string $ref to an existing schema and nothing else |
| `SchemaCollector.MapFieldToOpenAPISchema` | bundle/registry/v1/internal/bundle/gen-config-schema/main.go:364-408 | the field's schema, and its type's schema covered |
| `SchemaCollector.GenerateBundleConfigSchema` | bundle/registry/v1/internal/bundle/gen-config-schema/main.go:302-362 | the components are exactly the schemas reachable from the requested types, each as in the spec, and each property is that of the last field with a schema |
| `SchemaCollector.CoversIsReachable` | bundle/registry/v1/internal/bundle/gen-config-schema/main.go:411-467 | what covers the requested schemas from nothing is exactly what a chain of references reaches from them |
| `SchemaCollector.ComponentsClosed` | bundle/registry/v1/internal/bundle/gen-config-schema/main.go:344-359 | every property points into the components, and every resolvable reference inside a component does too |
| `Deployments.Deployment.EnsureCorrectCertVolumes` | bundle/registry/v1/internal/render/registryv1/generators/generators.go:535-593 | volumes and mounts under replaced names go, the rest keep their order, and the certificate entries come last in the pod and in every container |
| `Deployments.OneVolumePerName` | bundle/registry/v1/internal/render/registryv1/generators/generators.go:576-582 | each protected name then belongs to exactly one volume, the secret's |
| `Deployments.ProtectedPathOnce` | bundle/registry/v1/internal/render/registryv1/generators/generators.go:584-592 | each container then mounts each protected path exactly once, from the volume of that path |
| `Deployments.KeepsMountsResolving` | bundle/registry/v1/internal/render/registryv1/generators/generators.go:535-593 | container mounts that all resolved before all resolve after |
| `Deployments.RewrittenTwice` | bundle/registry/v1/internal/render/registryv1/generators/generators.go:535-593 | a second application changes nothing |
| `Deployments.Deployment.ApplyEnvironmentConfig` | bundle/registry/v1/internal/render/registryv1/generators/generators.go:636-661 | per container: untouched entries stay at their index, overridden ones change at their last place, new ones are appended, and nothing else of the container changes |
| `Deployments.MergeOverrides` | bundle/registry/v1/internal/render/registryv1/generators/generators.go:636-661 | by last value per name the merge is the old map overridden by the configuration's, even where names repeat |
| `Deployments.AppendMissing` | bundle/registry/v1/internal/render/registryv1/generators/generators.go:667-689 | what is there stays, each configured item that is missing is appended once, and a second application changes nothing (tolerations use the same loops) |
| `Rbac.GeneratePermissions` | bundle/registry/v1/internal/render/registryv1/generators/generators.go:104-132 | a role and a binding per target and permission, none when the only target is all namespaces |
| `Rbac.GenerateClusterPermissions` | bundle/registry/v1/internal/render/registryv1/generators/generators.go:147-177 | a cluster role and a binding per cluster permission and, for all namespaces, per permission with namespace reading added |
| `Rbac.GenerateRbac` | bundle/registry/v1/internal/render/registryv1/generators/generators.go:104-177 | the two generators together emit exactly the objects whose meaning the results below are about |
| `Rbac.GenerateServiceAccounts` | bundle/registry/v1/internal/render/registryv1/generators/generators.go:184-204 | each named account but the default one exactly once |
| `Rbac.MeaningPreserved` | bundle/registry/v1/internal/render/registryv1/generators/generators.go:104-177 | what an account may do in a namespace through the emitted objects is what the bundle asks for, when "" occurs at most as the only target |
| `Rbac.RepeatedAllLoses` | bundle/registry/v1/internal/render/registryv1/generators/generators.go:107-109 | with "" among several targets an account keeps only its cluster permissions in namespaces not listed |
| `Rbac.AcceptedMeaning` | bundle/registry/v1/internal/render/registryv1/generators/namespace.go:48-90 | for accepted targets the meaning is preserved except when the all-namespaces target is repeated |
| `Rbac.AcceptedLoses` | bundle/registry/v1/internal/render/registryv1/generators/namespace.go:48-90 | the accepted targets "" and "" with a bundle that may read pods everywhere and is allowed to nowhere |
| `Rbac.NothingOverwritten` | bundle/registry/v1/internal/render/registryv1/generators/generators.go:104-177 | two emitted RBAC objects of one kind, name and namespace are equal |
| `Rbac.BoundAccountsEmitted` | bundle/registry/v1/internal/render/registryv1/generators/generators.go:184-204 | every account a binding names is emitted, the default excepted |
| `Rbac.DefaultSeparates` | bundle/registry/v1/internal/render/render.go:168-171 | the default name generator separates the bundle's permissions when its dash-free hash does |
| `Rbac.ValidateTargetNamespaces` | bundle/registry/v1/internal/render/registryv1/generators/namespace.go:48-90 | accepts one distinct target if its own mode is supported, several if MultiNamespace is, none is "" and the own namespace has its mode |
| `Names.ObjectNameLength` | bundle/registry/v1/internal/util/util.go:16-21 | a generated name keeps to 63 characters except when base and suffix together have exactly 63 |
| `Names.SixtyFourCharacters` | bundle/registry/v1/internal/util/util.go:16-21 | the service of a deployment with a name of 56 characters gets one of 64 |
| `Names.SuffixesSeparate` | bundle/registry/v1/internal/util/util.go:16-21 | different dash-free suffixes never make the same name, however the bases are cut |
| `Names.ServiceNamesCollide` | bundle/registry/v1/internal/render/webhook.go:14-16 | two deployments share a service name exactly when what is kept of their names differs at most in dots and dashes |
| `Validators.CheckDeploymentSpecUniqueness` | bundle/registry/v1/internal/render/registryv1/validators/validator.go:21-36 | exactly the repeated names, sorted; none exactly when names are unique |
| `Validators.CheckDeploymentNameIsDNS1123SubDomain` | bundle/registry/v1/internal/render/registryv1/validators/validator.go:40-55 | exactly the invalid names, sorted |
| `Validators.CheckOwnedCRDExistence` | bundle/registry/v1/internal/render/registryv1/validators/validator.go:58-76 | exactly the owned CRDs the bundle does not have, sorted |
| `Validators.CheckCRDResourceUniqueness` | bundle/registry/v1/internal/render/registryv1/validators/validator.go:79-94 | exactly the repeated CRD names, sorted |
| `Validators.CheckConversionWebhookSupport` | bundle/registry/v1/internal/render/registryv1/validators/validator.go:107-134 | the conversion webhooks, unless AllNamespaces is the only supported mode |
| `Validators.CheckWebhookDeploymentReferentialIntegrity` | bundle/registry/v1/internal/render/registryv1/validators/validator.go:139-168 | exactly the webhooks without a deployment, each once, by deployment, type and name |
| `Validators.CheckWebhookNameUniqueness` | bundle/registry/v1/internal/render/registryv1/validators/validator.go:173-203 | exactly the repeated pairs of type and name, sorted |
| `Validators.CheckConversionWebhooksReferenceOwnedCRDs` | bundle/registry/v1/internal/render/registryv1/validators/validator.go:207-241 | one pair per reference of a conversion webhook to a CRD the bundle does not own, webhooks by name, references ascending |
| `Validators.CheckConversionWebhookCRDReferenceUniqueness` | bundle/registry/v1/internal/render/registryv1/validators/validator.go:244-268 | exactly the CRDs referenced more than once by conversion webhooks, sorted |
| `Validators.CheckWebhookNameIsDNS1123SubDomain` | bundle/registry/v1/internal/render/registryv1/validators/validator.go:271-298 | exactly the invalid webhook names with their types, sorted |
| `Validators.CheckWebhookRules` | bundle/registry/v1/internal/render/registryv1/validators/validator.go:300-350 | the forbidden groups and resources of admission webhook rules, in order; none exactly when every rule is allowed |
| `Validators.CheckObjectSupport` | bundle/registry/v1/internal/render/registryv1/validators/validator.go:354-363 | exactly the resources of unsupported kinds |
| `Validators.Validate` | bundle/registry/v1/internal/render/render.go:21-27 | no error exactly when all of these properties hold |
| `Generators.GenerateWebhookConfigs` | bundle/registry/v1/internal/render/registryv1/generators/generators.go:288-375 | one configuration per webhook of the kind, in order |
| `Generators.ConfigNamesDiffer` | bundle/registry/v1/internal/render/registryv1/validators/validator.go:271-298 | emitted configurations of one kind have different names after trimming |
| `Generators.GenerateServices` | bundle/registry/v1/internal/render/registryv1/generators/generators.go:380-424 | one service per deployment with webhooks, in order, with exactly the ports of its webhooks, each once, sorted by number and by the integer value of the target |
| `Generators.PortNamesDiffer` | bundle/registry/v1/internal/render/registryv1/generators/generators.go:512-528 | the ports of a service have different names exactly when its webhooks that use one port agree on the target port |
| `Generators.PortNamesClash` | bundle/registry/v1/internal/render/registryv1/generators/generators.go:512-528 | a bundle that passes every validator and whose only service has two ports of one name |
| `Generators.ServiceEmitted` | bundle/registry/v1/internal/render/registryv1/generators/generators.go:380-424 | every webhook of a valid bundle has the service its client names, and that service has the named port exactly when the container port is positive |
| `Generators.PortZeroUnserved` | bundle/registry/v1/internal/render/registryv1/generators/generators.go:380-424 | a bundle that passes every validator and has a webhook whose client names a port its service does not have |
| `Generators.ConfigsResolve` | bundle/registry/v1/internal/render/registryv1/generators/generators.go:288-375 | every emitted webhook configuration leads to an emitted service, and to one of its ports when it names a positive one |
| `Generators.TwinServices` | bundle/registry/v1/internal/render/webhook.go:14-16 | two emitted services share a name exactly when their deployments' kept names differ at most in dots and dashes |
| `Generators.TwinServicesHappen` | bundle/registry/v1/internal/render/webhook.go:14-16 | a bundle that passes every validator and gives the webhooks of two deployments one service key |
| `Generators.GenerateCrds` | bundle/registry/v1/internal/render/registryv1/generators/generators.go:209-262 | fails exactly on a CRD named twice by conversion webhooks or one that preserves unknown fields; otherwise every CRD in order with its conversion |
| `Generators.ConversionClosed` | bundle/registry/v1/internal/render/registryv1/generators/generators.go:228-259 | every CRD a conversion webhook of a valid bundle names is emitted once, with that webhook's conversion |
| `Generators.ConversionsResolve` | bundle/registry/v1/internal/render/registryv1/generators/generators.go:240-257 | every conversion set on an emitted CRD leads to an emitted service and port |
| `Generators.GenerateAdditional` | bundle/registry/v1/internal/render/registryv1/generators/generators.go:266-283 | fails exactly on an unsupported kind; otherwise every resource in order, namespaced ones in the install namespace |
| `Generators.Render` | bundle/registry/v1/internal/render/render.go:141-166 | for a valid bundle the only error left is a conversion CRD that preserves unknown fields: duplicate-CRD and unsupported-kind errors cannot occur |
| `Generators.ResolveInstallNamespace` | bundle/registry/v1/internal/render/registryv1/generators/namespace.go:109-142 | the first of the caller's, the template's, the suggested and the package's namespace that is present decides, and its name must be a label |

## Left out

- SQLite itself, connection pools, journal modes, temp directories and file formats; metadata migrations, whose tables are taken as present.
- `Query.QueryBundles`: a consumer that stops early is not modelled; it sees a front part of what is yielded.
- `StoreResolution.ImportResolved`: versions are their texts, and an unparseable release counts as the empty one, which no imported catalog stores.
- `Handles.Successors`: the handle and the query are one state; rows that change between finding a graph and asking it are not modelled.
- `Importer.Finalize`: an extension is, per package, the list of properties it sets and its error; what it reads and how it reacts to a refused write is not modelled.
- `Importer.Import`: starts from the staged packages and the ingest errors; failures of the staging database itself are not modelled.
- `Staging.StagingKeepsChannels`: the queries for channels, entries and deprecations name no order; the model reads each table in insertion order.
- `Staging.DeclaredReadsBack`: extension data, null JSON and blobs of other schemas are not staged.
- `Stores.Store.Set`: the options are taken as already applied; the importer is the list of operations it issues and how it ends.
- `ContentSchema.OpenStore`: the metadata migrations before the version check are not modelled; old content of a stale version is in the same shape as current content until it is dropped.
- `Ingest.StepKeeps`: what a producer parses is given as its list of items; walking files and parsing JSON or YAML are not modelled.
- `Resolver.SelectPackage`: an error from a catalog's GetPackage counts as the package being absent, as in the code; an error listing the catalogs is not modelled.
- `Releases.ParseRelease`: identifiers are ASCII texts as blang/semver accepts them; blang/semver and Masterminds versions are opaque with a comparison.
- `SchemaCollector.GenerateBundleConfigSchema`: fetching the OpenAPI document, reading Go source and the fixed texts of the schema are not modelled.
- `Deployments.Deployment.EnsureCorrectCertVolumes`: init containers are not rewritten by the code, and their mounts are not modelled.
- `Deployments.Deployment.ApplyEnvironmentConfig`: the other apply functions (volumes, mounts, resources, node selector, affinity, annotations) would only add easy members.
- `Validators.Validate`: error texts are reduced to the names they are about.
- `Generators.Render`: deployments, certificate provider objects and the namespace object are emitted by generators that are not part of this method.
- `Names.ObjectNameLength`: counts characters, where the code counts bytes.
- `Rbac.DefaultSeparates`: SHA-224 is an arbitrary function; that it separates the bundle's permissions is the hypothesis.
- Slice aliasing: a rendered object owns its lists, and nothing is claimed about the bundle it was rendered from.
- Error message texts, logging, Helm rendering and hermetic function lists.
