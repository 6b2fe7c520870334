/** The decision both services take at start-up about the document collection: keep it,
    or drop it and create it again. The vector store is abstracted to whether the collection
    exists and, if it does, its field names, its vector dimension and its number of rows. */
module Schema {
  import opened Wrappers

  datatype Collection = Collection(fields: set<string>, dim: nat, rows: nat)

  /** The store holds at most one collection under the configured name. */
  type Store = Option<Collection>

  /** The fields `RAGService` requires and creates. */
  const RagFields: set<string> := {"id", "content", "embedding", "source", "page", "chunk", "total_pages"}

  /** The fields `VectorService` creates. */
  const VectorFields: set<string> := {"id", "content", "embedding"}

  /** `VECTOR_DIM` of the configuration. */
  const VectorDim: nat := 768

  /** The calls made on the store: `utility.drop_collection` and `Collection(name, schema)`. */
  datatype Action = Drop | Create(fields: set<string>, dim: nat)

  /** A freshly created collection has the given schema and no rows. */
  function Step(store: Store, a: Action): (r: Store)
    ensures a.Drop? <==> r.None?
    ensures a.Create? ==> r.value.fields == a.fields && r.value.dim == a.dim && r.value.rows == 0
  {
    match a
    case Drop => None
    case Create(f, d) => Some(Collection(f, d, 0))
  }

  function Apply(store: Store, actions: seq<Action>): Store
    decreases |actions|
  {
    if actions == [] then store else Apply(Step(store, actions[0]), actions[1..])
  }

  /** A plan that ends by creating a collection leaves exactly that freshly created one. */
  lemma {:induction false} ApplyEndsWithCreate(store: Store, actions: seq<Action>, f: set<string>, d: nat)
    requires actions != [] && actions[|actions| - 1] == Create(f, d)
    ensures Apply(store, actions) == Some(Collection(f, d, 0))
    decreases |actions|
  {
    if |actions| > 1 {
      ApplyEndsWithCreate(Step(store, actions[0]), actions[1..], f, d);
    }
  }

  /** Creating is only ever attempted where no collection exists (the store rejects a
      second collection under the same name). */
  predicate CreatesOnlyWhenAbsent(store: Store, actions: seq<Action>)
    decreases |actions|
  {
    actions == [] ||
    ((actions[0].Create? ==> store.None?) && CreatesOnlyWhenAbsent(Step(store, actions[0]), actions[1..]))
  }

  predicate HasRagFields(store: Store) {
    store.Some? && RagFields <= store.value.fields
  }

  /** `RAGService._ensure_collection`: keep a collection that has every required field,
      otherwise drop it (if it exists) and create the seven-field collection. */
  function RagEnsureActions(store: Store, dim: nat): (r: seq<Action>)
    ensures r == [] <==> HasRagFields(store)
    ensures CreatesOnlyWhenAbsent(store, r)
    ensures store.Some? && !HasRagFields(store) ==> r[0] == Drop
  {
    if store.None? then [Create(RagFields, dim)]
    else if RagFields <= store.value.fields then []
    else [Drop, Create(RagFields, dim)]
  }

  function RagEnsure(store: Store, dim: nat): (r: Store)
    ensures HasRagFields(r)
    ensures r == store <==> HasRagFields(store)
    ensures !HasRagFields(store) ==> r == Some(Collection(RagFields, dim, 0))
  {
    var actions := RagEnsureActions(store, dim);
    if actions == [] then store
    else
      ApplyEndsWithCreate(store, actions, RagFields, dim);
      Apply(store, actions)
  }

  /** A second `_ensure_collection` does nothing, whatever the first one did. */
  lemma RagEnsureIdempotent(store: Store, dim: nat, dim': nat)
    ensures RagEnsureActions(RagEnsure(store, dim), dim') == []
    ensures RagEnsure(RagEnsure(store, dim), dim') == RagEnsure(store, dim)
  {
  }

  /** Only field names are compared: a collection with the required fields but a vector
      dimension other than the embedder's is kept, rows included. */
  lemma RagEnsureIgnoresDimension(fields: set<string>, dim: nat, rows: nat, dim': nat)
    requires RagFields <= fields && dim != dim'
    ensures RagEnsure(Some(Collection(fields, dim, rows)), dim') == Some(Collection(fields, dim, rows))
  {
  }

  /** `VectorService.ensure_collection`: drop an existing collection, then create the
      three-field collection. */
  function VectorEnsureActions(store: Store): (r: seq<Action>)
    ensures CreatesOnlyWhenAbsent(store, r)
    ensures store.Some? <==> (|r| == 2 && r[0] == Drop)
    ensures r != [] && r[|r| - 1] == Create(VectorFields, VectorDim)
  {
    if store.Some? then [Drop, Create(VectorFields, VectorDim)] else [Create(VectorFields, VectorDim)]
  }

  function VectorEnsure(store: Store): (r: Store)
    ensures r == Some(Collection(VectorFields, VectorDim, 0))
  {
    ApplyEndsWithCreate(store, VectorEnsureActions(store), VectorFields, VectorDim);
    Apply(store, VectorEnsureActions(store))
  }

  /** The application constructs `VectorService` and then `RAGService`: the first empties
      the store and leaves a collection without `source`, `page`, `chunk` and `total_pages`,
      so the second always drops that one too. Every row stored before start-up is lost. */
  lemma StartupRecreates(store: Store, dim: nat)
    ensures RagEnsureActions(VectorEnsure(store), dim) == [Drop, Create(RagFields, dim)]
    ensures RagEnsure(VectorEnsure(store), dim) == Some(Collection(RagFields, dim, 0))
  {
    assert "source" in RagFields && "source" !in VectorFields;
  }
}
