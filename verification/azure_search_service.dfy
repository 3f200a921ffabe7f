/** The control decisions `AzureSearchService` takes around the remote
    search service: create the index only when it is missing, delete it only
    when it is present, send single-action batches and report the keys that
    failed, pass a filter only when one is given, and release its clients once. */
module SearchService {
  import opened Results
  import opened SearchRemote

  /** What the client object holds: the index it is bound to, the `disposed`
      flag, and how often each of its two clients was released. */
  datatype ServiceState = ServiceState(
    indexName: string,
    disposed: bool,
    indexClientReleases: nat,
    serviceClientReleases: nat)

  /** The error every failed batch is reported with. */
  datatype BlogSystemException = BlogSystemException(message: string)

  /** What one batch call leaves behind: the batch submitted, the keys written
      to the trace log, and whether the call completed or threw. */
  datatype BatchReport = BatchReport(
    batch: seq<IndexAction>,
    logged: seq<string>,
    outcome: Outcome<BlogSystemException>)

  const KeyFieldName: string := "blogId"

  /** The fixed index schema `CreateSearchIndex` submits. */
  function BlogIndexDefinition(indexName: string): IndexDefinition
  {
    IndexDefinition(indexName, [
      Field(KeyFieldName, EdmString, isKey := true, isSearchable := false,
            isFilterable := false, isFacetable := false),
      Field("title", EdmString, isKey := false, isSearchable := true,
            isFilterable := true, isFacetable := false),
      Field("searchTags", Collection(EdmString), isKey := false, isSearchable := true,
            isFilterable := true, isFacetable := true)])
  }

  /** Names of the fields of `d` that have property `p`. */
  function FieldsWith(d: IndexDefinition, p: Field -> bool): set<string>
  {
    set i | 0 <= i < |d.fields| && p(d.fields[i]) :: d.fields[i].name
  }

  /** The schema has three distinct fields; `blogId` is the only key, both
      `blogId` and `title` are strings, `searchTags` is a string collection,
      `title` and `searchTags` are the searchable and filterable fields, and
      `searchTags` is the only facetable one. */
  lemma BlogSchemaShape(indexName: string)
    ensures var d := BlogIndexDefinition(indexName);
      && d.name == indexName
      && |d.fields| == 3
      && (forall i, j :: 0 <= i < j < |d.fields| ==> d.fields[i].name != d.fields[j].name)
      && FieldsWith(d, (f: Field) => f.isKey) == {"blogId"}
      && FieldsWith(d, (f: Field) => f.isSearchable) == {"title", "searchTags"}
      && FieldsWith(d, (f: Field) => f.isFilterable) == {"title", "searchTags"}
      && FieldsWith(d, (f: Field) => f.isFacetable) == {"searchTags"}
      && FieldsWith(d, (f: Field) => f.dataType == EdmString) == {"blogId", "title"}
      && FieldsWith(d, (f: Field) => f.dataType == Collection(EdmString)) == {"searchTags"}
  {
    var d := BlogIndexDefinition(indexName);
    assert d.fields[0].name == "blogId";
    assert d.fields[1].name == "title";
    assert d.fields[2].name == "searchTags";
  }

  /** `CreateSearchIndex`. */
  function CreateSearchIndex(remote: Remote, indexName: string): (r: Result<Remote, ServiceError>)
    ensures r.Failure? <==> indexName in remote.indexes
    ensures r.Failure? ==> r.error == SchemaConflict(indexName)
    ensures indexName !in remote.indexes ==>
      r.value == remote.(indexes := remote.indexes[indexName := BlogIndexDefinition(indexName)],
                         createCalls := remote.createCalls + 1)
  {
    CreateIndex(remote, BlogIndexDefinition(indexName))
  }

  /** `CreateIndexIfNotExists`: asks first and creates only on "absent", so
      the schema conflict the remote create could raise never surfaces. */
  function CreateIndexIfNotExists(remote: Remote, indexName: string): (r: Result<Remote, ServiceError>)
    ensures r.Success?
    ensures indexName in r.value.indexes
    ensures indexName in remote.indexes ==> r.value == remote
    ensures indexName !in remote.indexes ==>
      && r.value.createCalls == remote.createCalls + 1
      && r.value.indexes[indexName] == BlogIndexDefinition(indexName)
    ensures r.value.deleteCalls == remote.deleteCalls
    ensures forall name :: name in remote.indexes ==>
      name in r.value.indexes && r.value.indexes[name] == remote.indexes[name]
    ensures forall name :: name in r.value.indexes && name != indexName ==> name in remote.indexes
  {
    if !IndexExists(remote, indexName) then CreateSearchIndex(remote, indexName) else Success(remote)
  }

  /** Calling `CreateIndexIfNotExists` twice in a row issues at most one
      create: the second call finds the index and changes nothing. */
  lemma CreateIndexTwiceCreatesAtMostOnce(remote: Remote, indexName: string)
    ensures var once := CreateIndexIfNotExists(remote, indexName).value;
      var twice := CreateIndexIfNotExists(once, indexName).value;
      twice == once && twice.createCalls <= remote.createCalls + 1
  {
  }

  /** The constructor: ensures the index exists, then binds a fresh,
      undisposed client to it. Credentials are not modelled. */
  function Open(remote: Remote, indexName: string): (r: (Remote, ServiceState))
    ensures r.0 == CreateIndexIfNotExists(remote, indexName).value
    ensures indexName in r.0.indexes
    ensures indexName in remote.indexes ==> r.0 == remote
    ensures r.0.createCalls <= remote.createCalls + 1
    ensures r.1.indexName == indexName && !r.1.disposed
    ensures r.1.indexClientReleases == 0 && r.1.serviceClientReleases == 0
  {
    (CreateIndexIfNotExists(remote, indexName).value, ServiceState(indexName, false, 0, 0))
  }

  /** `DeleteIndex`: deletes only an index that exists. */
  function DeleteIndex(remote: Remote, indexName: string): (r: Remote)
    ensures indexName !in r.indexes
    ensures indexName !in remote.indexes ==> r == remote
    ensures indexName in remote.indexes ==> r.deleteCalls == remote.deleteCalls + 1
    ensures r.createCalls == remote.createCalls
    ensures forall name :: name != indexName ==>
      (name in r.indexes <==> name in remote.indexes)
    ensures forall name :: name in r.indexes ==> r.indexes[name] == remote.indexes[name]
  {
    if IndexExists(remote, indexName) then RemoveIndex(remote, indexName) else remote
  }

  /** The keys of the failed results, in result order. */
  function FailedKeys(results: seq<IndexResult>): (keys: seq<string>)
    ensures |keys| <= |results|
    ensures forall k :: k in keys <==>
      exists i :: 0 <= i < |results| && !results[i].succeeded && results[i].key == k
    ensures keys == [] <==> forall i :: 0 <= i < |results| ==> results[i].succeeded
  {
    if results == [] then []
    else (if results[0].succeeded then [] else [results[0].key]) + FailedKeys(results[1..])
  }

  /** Selecting failed keys commutes with splitting the results, so the keys
      come out in the order of the results they belong to. */
  lemma {:induction false} FailedKeysAppend(a: seq<IndexResult>, b: seq<IndexResult>)
    ensures FailedKeys(a + b) == FailedKeys(a) + FailedKeys(b)
    decreases |a|
  {
    if a == [] {
      assert a + b == b;
    } else {
      assert (a + b)[1..] == a[1..] + b;
      FailedKeysAppend(a[1..], b);
    }
  }

  /** The handling shared by upsert and delete: the remote answers the batch
      with one result per action; if any failed, the failed keys are logged
      and the call throws, carrying no keys. */
  function SubmitBatch(service: ServiceState, batch: seq<IndexAction>,
                       index: (string, seq<IndexAction>) -> seq<IndexResult>): (r: BatchReport)
    ensures r.batch == batch
    ensures r.outcome.Pass? <==> forall i :: 0 <= i < |index(service.indexName, batch)| ==>
      index(service.indexName, batch)[i].succeeded
    ensures r.outcome.Pass? ==> r.logged == []
    ensures r.outcome.Fail? ==> r.logged == FailedKeys(index(service.indexName, batch))
    ensures r.outcome.Fail? ==> r.outcome.error == BlogSystemException("failed on index")
  {
    var results := index(service.indexName, batch);
    var failed := FailedKeys(results);
    if failed == [] then BatchReport(batch, [], Pass)
    else BatchReport(batch, failed, Fail(BlogSystemException("failed on index")))
  }

  /** `UpsertDataToIndex`: one upload action carrying the given entity. */
  function UpsertDataToIndex(service: ServiceState, entity: BlogSearch,
                             index: (string, seq<IndexAction>) -> seq<IndexResult>): (r: BatchReport)
    ensures |r.batch| == 1
    ensures r.batch[0] == IndexAction(Upload, Typed(entity))
    ensures r.outcome.Pass? ==> r.logged == []
    ensures r.outcome.Fail? <==>
      (exists i :: 0 <= i < |index(service.indexName, r.batch)| &&
                   !index(service.indexName, r.batch)[i].succeeded)
    ensures r.logged == FailedKeys(index(service.indexName, r.batch))
  {
    SubmitBatch(service, [IndexAction(Upload, Typed(entity))], index)
  }

  /** `DeleteData`: one delete action whose document is `{blogId: id}`. */
  function DeleteData(service: ServiceState, idToDelete: string,
                      index: (string, seq<IndexAction>) -> seq<IndexResult>): (r: BatchReport)
    ensures |r.batch| == 1
    ensures r.batch[0] == IndexAction(Delete, Untyped(map[KeyFieldName := idToDelete]))
    ensures r.outcome.Pass? ==> r.logged == []
    ensures r.outcome.Fail? <==>
      (exists i :: 0 <= i < |index(service.indexName, r.batch)| &&
                   !index(service.indexName, r.batch)[i].succeeded)
    ensures r.logged == FailedKeys(index(service.indexName, r.batch))
  {
    SubmitBatch(service, [IndexAction(Delete, Untyped(map[KeyFieldName := idToDelete]))], index)
  }

  /** A three-action batch, answered with one result per action, of which
      only the second failed: exactly that key is logged and the call throws. */
  lemma PartialFailureLogsOnlyFailedKey(service: ServiceState, a: BlogSearch, b: BlogSearch, c: BlogSearch)
    ensures var batch := [IndexAction(Upload, Typed(a)), IndexAction(Upload, Typed(b)),
                          IndexAction(Upload, Typed(c))];
      var results := [IndexResult("k1", true), IndexResult("k3", false), IndexResult("k4", true)];
      var r := SubmitBatch(service, batch, (_, actions: seq<IndexAction>) =>
        if |actions| == 3 then results else []);
      r.outcome == Fail(BlogSystemException("failed on index")) && r.logged == ["k3"]
  {
    var results := [IndexResult("k1", true), IndexResult("k3", false), IndexResult("k4", true)];
    FailedKeysAppend([results[0]], results[1..]);
    FailedKeysAppend([results[1]], results[2..]);
  }

  /** The search parameters: the filter is set only when it is neither null
      nor empty. */
  function SearchParametersFor(filter: Option<string>): (p: SearchParameters)
    ensures p.filter.Some? <==> filter.Some? && filter.value != ""
    ensures p.filter.Some? ==> p.filter == filter
  {
    if filter.Some? && filter.value != "" then SearchParameters(filter) else SearchParameters(None)
  }

  /** `SearchDocuments`: one query with those parameters, and the document of
      each hit, in the order the service returned them. */
  function SearchDocuments(service: ServiceState, searchText: string, filter: Option<string>,
                           search: (string, string, SearchParameters) -> seq<SearchResult>): (docs: seq<BlogSearch>)
    ensures var response := search(service.indexName, searchText, SearchParametersFor(filter));
      && |docs| == |response|
      && forall i :: 0 <= i < |docs| ==> docs[i] == response[i].document
  {
    var response := search(service.indexName, searchText, SearchParametersFor(filter));
    seq(|response|, i requires 0 <= i < |response| => response[i].document)
  }

  /** `Dispose(bool)`: the clients are released on the first call only, and
      only when it disposes managed resources; the flag is set either way. */
  function DisposeCore(s: ServiceState, disposing: bool): (r: ServiceState)
    ensures r.disposed
    ensures r.indexName == s.indexName
    ensures r.indexClientReleases == s.indexClientReleases + (if !s.disposed && disposing then 1 else 0)
    ensures r.serviceClientReleases == s.serviceClientReleases + (if !s.disposed && disposing then 1 else 0)
  {
    if !s.disposed && disposing then
      s.(disposed := true,
         indexClientReleases := s.indexClientReleases + 1,
         serviceClientReleases := s.serviceClientReleases + 1)
    else s.(disposed := true)
  }

  /** `Dispose()`: the public entry point, disposing managed resources. */
  function Dispose(s: ServiceState): (r: ServiceState)
    ensures r.disposed
    ensures r.indexName == s.indexName
    ensures !s.disposed ==> r.indexClientReleases == s.indexClientReleases + 1
    ensures !s.disposed ==> r.serviceClientReleases == s.serviceClientReleases + 1
    ensures s.disposed ==> r == s
  {
    DisposeCore(s, true)
  }

  /** The finalizer: disposes without releasing the managed clients. */
  function Finalize(s: ServiceState): (r: ServiceState)
    ensures r.disposed
    ensures r.indexClientReleases == s.indexClientReleases
    ensures r.serviceClientReleases == s.serviceClientReleases
  {
    DisposeCore(s, false)
  }

  /** A second dispose, of either kind, changes nothing. */
  lemma DisposeIdempotent(s: ServiceState, first: bool, second: bool)
    ensures DisposeCore(DisposeCore(s, first), second) == DisposeCore(s, first)
  {
  }

  /** The state after a sequence of `Dispose(b)` calls. */
  function DisposeAll(s: ServiceState, calls: seq<bool>): ServiceState
    decreases |calls|
  {
    if calls == [] then s else DisposeAll(DisposeCore(s, calls[0]), calls[1..])
  }

  /** Whatever sequence of dispose calls a freshly opened client sees, each
      client is released at most once: exactly once when the first call
      disposes managed resources, never otherwise. */
  lemma {:induction false} ReleasedAtMostOnce(s: ServiceState, calls: seq<bool>)
    requires !s.disposed && s.indexClientReleases == 0 && s.serviceClientReleases == 0
    ensures var r := DisposeAll(s, calls);
      && r.indexClientReleases == r.serviceClientReleases
      && r.indexClientReleases == (if calls != [] && calls[0] then 1 else 0)
      && (calls != [] ==> r.disposed)
  {
    if calls != [] {
      DisposedStaysPut(DisposeCore(s, calls[0]), calls[1..]);
    }
  }

  /** Once disposed, further dispose calls leave the client as it is. */
  lemma {:induction false} DisposedStaysPut(s: ServiceState, calls: seq<bool>)
    requires s.disposed
    ensures DisposeAll(s, calls) == s
    decreases |calls|
  {
    if calls != [] {
      DisposedStaysPut(DisposeCore(s, calls[0]), calls[1..]);
    }
  }
}
