/** The remote search service as this client sees it. Only the state its
    guards depend on is kept: which indexes exist (with the definition each
    was created with) and how many create and delete calls were issued. */
module SearchRemote {
  import opened Results

  /** Field types of the index schema: `Edm.String` and `Collection(...)`. */
  datatype DataType = EdmString | Collection(element: DataType)

  datatype Field = Field(
    name: string,
    dataType: DataType,
    isKey: bool,
    isSearchable: bool,
    isFilterable: bool,
    isFacetable: bool)

  datatype IndexDefinition = IndexDefinition(name: string, fields: seq<Field>)

  datatype Remote = Remote(
    indexes: map<string, IndexDefinition>,
    createCalls: nat,
    deleteCalls: nat)

  datatype ServiceError = SchemaConflict(indexName: string)

  /** `Indexes.Exists`. */
  predicate IndexExists(remote: Remote, name: string)
  {
    name in remote.indexes
  }

  /** `Indexes.Create`: refused when an index of that name already exists. */
  function CreateIndex(remote: Remote, definition: IndexDefinition): Result<Remote, ServiceError>
  {
    if definition.name in remote.indexes then Failure(SchemaConflict(definition.name))
    else Success(remote.(indexes := remote.indexes[definition.name := definition],
                         createCalls := remote.createCalls + 1))
  }

  /** `Indexes.Delete`: counted as a call, and a no-op when the index is absent. */
  function RemoveIndex(remote: Remote, name: string): Remote
  {
    remote.(indexes := remote.indexes - {name}, deleteCalls := remote.deleteCalls + 1)
  }

  /** Documents the index holds: a typed search entity, or an untyped map of
      field values. */
  datatype BlogSearch = BlogSearch(blogId: string, title: string, searchTags: seq<string>)

  datatype Document = Typed(entity: BlogSearch) | Untyped(fields: map<string, string>)

  /** `IndexActionType.Upload` inserts or replaces a document; `Delete` removes it. */
  datatype ActionType = Upload | Delete

  datatype IndexAction = IndexAction(actionType: ActionType, document: Document)

  /** What the service reports for one action of a batch. */
  datatype IndexResult = IndexResult(key: string, succeeded: bool)

  /** One hit of a query. */
  datatype SearchResult = SearchResult(score: real, document: BlogSearch)

  datatype SearchParameters = SearchParameters(filter: Option<string>)
}
