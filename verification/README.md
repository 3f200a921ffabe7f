# Blog record chunking and search-service guards

A Dafny model of two pieces of the blog site's utility libraries.

- **Blog record conversion** (`TableBlogEntity`). A blog post is stored in
  table storage as a record whose body is cut into chunks no longer than
  `ContentSplitLength`; the posted date defaults to the current UTC time when
  the post carries `DateTime.MinValue`. `GetBlogPost` turns a record back into
  a post by joining the chunks. The model proves that the body survives the
  round trip, that every chunk respects the bound, that the date default is
  applied only once, and that the key and the formatted URI are *not* carried
  back.
- **Search-service guards** (`AzureSearchService`). Around the calls into the
  Azure Search SDK, the service creates its index only when it is missing,
  deletes an index only when it exists, sends one-action batches, logs the
  keys of failed actions before throwing, passes a filter only when one is
  given, and releases its two clients once. The remote service is abstract
  state (the indexes that exist, with their definitions, and call counters);
  the remote's answers to a batch or a query are function parameters.

Files: `results.dfy` (Option/Result/Outcome), `chunking.dfy` (module
`StringChunks`: the split and join helpers), `table_blog_entity.dfy` (module
`BlogEntities`), `search_remote.dfy` (module `SearchRemote`: the abstract
remote service), `azure_search_service.dfy` (module `SearchService`).

Modelling choices:

- `SplitByLength` and `Combine` are extension methods from the `Helpers`
  namespace (`TableBlogEntity.cs:8`); their code is not modelled. They are
  defined here as the evident pair: the split takes `min(n, remaining)`
  characters at a time, the empty string gives no chunks, and the join
  concatenates with no separator.
- `ApplicationConstants.ContentSplitLength` is a constant whose definition is
  not modelled; it is taken to be 1024. Every proof about chunking holds for
  any length of at least 1.
- C# string fields that may be null are `Option<string>`; `None` is null,
  the default of a field nobody sets.
- `DateTime` is an opaque tick count whose zero is `MinValue`; the clock
  reading `DateTime.UtcNow` is a parameter.
- The trace log line of a failed batch is modelled as the `logged` sequence
  of the returned `BatchReport`.

Behaviour of the code worth noting:

- A failed batch throws `BlogSystemException("failed on index")`, which
  carries no set of failed keys; the keys only reach the trace log
  (`AzureSearchService.cs:138` and `:183`).
- The finalizer calls `Dispose(false)` (`AzureSearchService.cs:69-72`), which
  sets the flag without releasing either client (`:206-217`), so the clients
  are released only through an explicit `Dispose()`.
- The comments at `AzureSearchService.cs:132-134` and `:177-179` say the
  failed keys are logged and execution continues, but the code throws right
  after logging (`:138`, `:183`); the model follows the code.
- At `AzureSearchService.cs:172` the simple name `Document` is declared both
  in `RahulRai.Websites.Utilities.Common.Entities` (imported at `:9`) and in
  `Microsoft.Azure.Search.Models` (imported at `:12`); the model reads it as
  the SDK's key/value document, the only reading the collection initializer
  `{{"blogId", idToDelete}}` allows.
- The trace call at `AzureSearchService.cs:135-137` and `:180-182` passes the
  joined keys as the second argument of `Trace.WriteLine`, which is the log
  category, not a format argument; the message keeps a literal `{0}`. The
  keys still reach the log, which is all the model records.

## Model

| member | source | states |
|---|---|---|
| StringChunks.SplitByLength | RahulRai.Websites.Utilities.Common/Entities/TableBlogEntity.cs:32 | every stored chunk is non-empty and at most the split length long |
| StringChunks.CombineSplit | RahulRai.Websites.Utilities.Common/Entities/TableBlogEntity.cs:119 | joining the chunks of a body gives exactly that body back, for any split length of at least 1 |
| StringChunks.CombineAppend | RahulRai.Websites.Utilities.Common/Entities/TableBlogEntity.cs:119 | joining two chunk lists one after the other is joining their concatenation, so the join respects chunk order |
| StringChunks.SplitIsChunking | RahulRai.Websites.Utilities.Common/Entities/TableBlogEntity.cs:32 | the split is a canonical chunking: it joins to the body, no chunk is empty or too long, every chunk but the last is full |
| StringChunks.ChunkingIsUnique | RahulRai.Websites.Utilities.Common/Entities/TableBlogEntity.cs:32 | any canonical chunking of a body is the one the split computes, so split and canonical chunking are the same thing |
| StringChunks.SplitCombine | RahulRai.Websites.Utilities.Common/Entities/TableBlogEntity.cs:119 | re-splitting the join of a canonical chunking returns the same chunks |
| StringChunks.SplitCount | RahulRai.Websites.Utilities.Common/Entities/TableBlogEntity.cs:32 | the number of chunks is the ceiling of body length over split length |
| StringChunks.SplitByLengthIter | RahulRai.Websites.Utilities.Common/Entities/TableBlogEntity.cs:32 | the chunking loop produces the same chunks as the recursive definition, joining back to the input within the bound |
| BlogEntities.FromPost | RahulRai.Websites.Utilities.Common/Entities/TableBlogEntity.cs:29-41 | the record's chunks join to the post body and respect `ContentSplitLength`; the date is "now" exactly when the post's is `MinValue`; the other eight fields are copied |
| BlogEntities.NewTableBlogEntity | RahulRai.Websites.Utilities.Common/Entities/TableBlogEntity.cs:29-31 | a null post throws `NullReferenceException` at the first field read, with no guard; any other post is converted exactly as `FromPost` does, with its chunking, date and field-copy rules |
| BlogEntities.GetBlogPost | RahulRai.Websites.Utilities.Common/Entities/TableBlogEntity.cs:108-126 | no record gives no post and no error; otherwise the body is the join of the chunks, seven scalars are copied, and key and formatted URI stay null |
| BlogEntities.PostRoundTrip | RahulRai.Websites.Utilities.Common/Entities/TableBlogEntity.cs:115-125 | storing then reading a post returns its body unchanged; the result is the post with the date defaulted and key and URI cleared |
| BlogEntities.PostRoundTripLosesKeyAndUri | RahulRai.Websites.Utilities.Common/Entities/TableBlogEntity.cs:115-125 | a post with a key or a formatted URI does not survive the round trip unchanged |
| BlogEntities.FromPostIsCanonical | RahulRai.Websites.Utilities.Common/Entities/TableBlogEntity.cs:32 | every record built from a post holds the canonical chunking of its body |
| BlogEntities.EntityRoundTrip | RahulRai.Websites.Utilities.Common/Entities/TableBlogEntity.cs:29-41 | reading a canonical, dated record and storing it again rebuilds it exactly, save key and formatted URI, whatever the clock reads |
| BlogEntities.PostedDateDefaultAppliedOnce | RahulRai.Websites.Utilities.Common/Entities/TableBlogEntity.cs:37 | record to post to record keeps the first record's posted date when "now" is not `MinValue` |
| BlogEntities.FiveThousandCharacterBody | RahulRai.Websites.Utilities.Common/Entities/TableBlogEntity.cs:32 | a 5000-character body is stored as five chunks and read back whole |
| SearchService.BlogSchemaShape | RahulRai.Websites.Utilities.AzureStorage/Search/AzureSearchService.cs:94-111 | the index has three distinct fields: `blogId` the only key, `title` and `searchTags` searchable and filterable, `searchTags` the only facetable one and the only string collection |
| SearchService.CreateSearchIndex | RahulRai.Websites.Utilities.AzureStorage/Search/AzureSearchService.cs:92-114 | the remote create is refused with a schema conflict exactly when an index of that name exists; otherwise the fixed blog schema is added under that name with one create call |
| SearchService.CreateIndexIfNotExists | RahulRai.Websites.Utilities.AzureStorage/Search/AzureSearchService.cs:79-85 | afterwards the index exists; a create is issued only when it was absent, so the schema conflict never surfaces; other indexes are untouched |
| SearchService.CreateIndexTwiceCreatesAtMostOnce | RahulRai.Websites.Utilities.AzureStorage/Search/AzureSearchService.cs:79-85 | two calls in a row issue at most one create; the second changes nothing |
| SearchService.Open | RahulRai.Websites.Utilities.AzureStorage/Search/AzureSearchService.cs:42-47 | construction ensures the index exists, leaving the remote unchanged when it already did and issuing at most one create, and binds to it a client that is not disposed and has released nothing |
| SearchService.DeleteIndex | RahulRai.Websites.Utilities.AzureStorage/Search/AzureSearchService.cs:191-197 | afterwards the index is gone; when it was absent no delete is issued and nothing changes; other indexes are untouched |
| SearchService.FailedKeys | RahulRai.Websites.Utilities.AzureStorage/Search/AzureSearchService.cs:137 | a key is selected exactly when some result with that key failed; none are selected exactly when all succeeded |
| SearchService.FailedKeysAppend | RahulRai.Websites.Utilities.AzureStorage/Search/AzureSearchService.cs:137 | selection commutes with splitting the results, so keys come out in result order |
| SearchService.SubmitBatch | RahulRai.Websites.Utilities.AzureStorage/Search/AzureSearchService.cs:130-139 | the call completes, logging nothing, exactly when every result succeeded; otherwise it logs the failed keys and throws an error that carries no keys |
| SearchService.UpsertDataToIndex | RahulRai.Websites.Utilities.AzureStorage/Search/AzureSearchService.cs:121-140 | the batch is a single upload of the given entity; it fails exactly when some result failed and logs exactly the failed keys |
| SearchService.DeleteData | RahulRai.Websites.Utilities.AzureStorage/Search/AzureSearchService.cs:167-185 | the batch is a single delete of the document `{blogId: id}`; failure handling is the same as upsert's |
| SearchService.PartialFailureLogsOnlyFailedKey | RahulRai.Websites.Utilities.AzureStorage/Search/AzureSearchService.cs:130-139 | for a three-action batch answered k1 ok, k3 failed, k4 ok, only `k3` is logged and the call throws |
| SearchService.SearchParametersFor | RahulRai.Websites.Utilities.AzureStorage/Search/AzureSearchService.cs:151-156 | a filter is set exactly when the given one is neither null nor empty, and then it is the given one |
| SearchService.SearchDocuments | RahulRai.Websites.Utilities.AzureStorage/Search/AzureSearchService.cs:148-160 | the result holds the document of each hit of the one query issued, in the service's order |
| SearchService.DisposeCore | RahulRai.Websites.Utilities.AzureStorage/Search/AzureSearchService.cs:206-217 | the flag is set after any call; both clients are released once more exactly when not yet disposed and disposing |
| SearchService.Dispose | RahulRai.Websites.Utilities.AzureStorage/Search/AzureSearchService.cs:60-64 | the public dispose releases both clients on the first call and changes nothing on later ones |
| SearchService.Finalize | RahulRai.Websites.Utilities.AzureStorage/Search/AzureSearchService.cs:69-72 | the finalizer sets the flag but releases no client |
| SearchService.DisposeIdempotent | RahulRai.Websites.Utilities.AzureStorage/Search/AzureSearchService.cs:206-217 | a second dispose of either kind changes nothing |
| SearchService.ReleasedAtMostOnce | RahulRai.Websites.Utilities.AzureStorage/Search/AzureSearchService.cs:206-217 | over any sequence of dispose calls each client is released at most once, exactly once when the first call disposes |
| SearchService.DisposedStaysPut | RahulRai.Websites.Utilities.AzureStorage/Search/AzureSearchService.cs:208-216 | once disposed, any further dispose calls leave the state as it is |

## Left out

- BlogEntities.FromPost: the value 1024 of `ContentSplitLength` is an assumption; the chunking lemmas hold for every length of at least 1.
- BlogEntities.FromPost: a null body is not modelled; what happens then depends on the split helper, whose code is not modelled. A null post is modelled by `BlogEntities.NewTableBlogEntity`.
- BlogEntities.GetBlogPost: a record with a null chunk list is not modelled; what happens then depends on the join helper, whose code is not modelled.
- StringChunks.SplitByLength: counts Unicode scalar values (Dafny `char`), not the UTF-16 code units C# string lengths count; bodies with characters outside the Basic Multilingual Plane get fewer, longer chunks than in C#, and no surrogate pair is ever cut; the round trip holds either way.
- The logging itself (`Trace.WriteLine`): only the keys it would write are kept.
- The Azure Search SDK: networking, credentials, query and ranking semantics, errors other than a failed batch (for instance an index that does not exist), and what is sent on the wire. `IndexAction.Create` is taken to build an upload (insert-or-replace) action.
- SearchService.SubmitBatch: `Documents.Index` is taken to throw `IndexBatchException` exactly when some result has `Succeeded == false`; other SDK failures are not modelled.
- The `BlogSearch` class is not modelled; it is taken to hold the three schema fields.
- SearchService.BlogSchemaShape: every field attribute `CreateSearchIndex` leaves unset is read as `false`, and `IsSortable` and `IsRetrievable` are not modelled; the claims that `blogId` is the only key and `searchTags` the only facetable field rest on that reading of the SDK defaults.
- SearchService.SearchDocuments: the query runs once, when the method is called; the source then returns a lazy projection of the response, while the model returns the projected sequence. Only the first page of results is modelled.
- `GC.SuppressFinalize` and the timing of finalization: only the `disposed` flag and release counts are kept.
- Calls made after disposal are not modelled as failing; the source does not guard them either.
- Concurrency, including the race between two callers that both find the index missing.
- The parameterless constructors of `TableBlogEntity` and `AzureSearchService`, `Document.cs` and `FileLeaseState.cs`: they hold no behaviour.
- The projection of a post onto a search document happens outside `TableBlogEntity` and `AzureSearchService` and is not modelled.
