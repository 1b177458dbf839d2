/** The vector-store catalog: membership and lookup by id, and the in-memory
    cache in front of the catalog file. */
module VectorStores {
  import opened Wrappers
  import opened AgentTypes

  type Catalog = seq<VectorStoreDefinition>

  /** Some catalog entry carries exactly this id. */
  predicate IsRegistered(catalog: Catalog, id: string) {
    exists i :: 0 <= i < |catalog| && catalog[i].id == id
  }

  /** `IsRegistered` as a filter callback. */
  function RegisteredIn(catalog: Catalog): string -> bool {
    id => IsRegistered(catalog, id)
  }

  function UnregisteredIn(catalog: Catalog): string -> bool {
    id => !IsRegistered(catalog, id)
  }

  /** `catalog.find(store => store.id === id)`: the first entry with that id. */
  function FindById(catalog: Catalog, id: string): (r: Option<VectorStoreDefinition>)
    ensures r.Some? <==> IsRegistered(catalog, id)
    ensures r.Some? ==> r.value.id == id && r.value in catalog
    ensures r.Some? ==> exists i :: 0 <= i < |catalog| && catalog[i] == r.value &&
                                    forall j :: 0 <= j < i ==> catalog[j].id != id
  {
    if |catalog| == 0 then None
    else if catalog[0].id == id then Some(catalog[0])
    else
      var r := FindById(catalog[1..], id);
      assert IsRegistered(catalog, id) ==> IsRegistered(catalog[1..], id) by {
        if IsRegistered(catalog, id) {
          var i :| 0 <= i < |catalog| && catalog[i].id == id;
          assert catalog[1..][i - 1] == catalog[i];
        }
      }
      assert r.Some? ==> exists i :: 0 <= i < |catalog| && catalog[i] == r.value &&
                                     forall j :: 0 <= j < i ==> catalog[j].id != id by {
        if r.Some? {
          var i :| 0 <= i < |catalog| - 1 && catalog[1..][i] == r.value &&
                   forall j :: 0 <= j < i ==> catalog[1..][j].id != id;
          assert catalog[i + 1] == r.value;
          assert forall j :: 0 <= j < i + 1 ==> catalog[j].id != id by {
            forall j | 0 <= j < i + 1 ensures catalog[j].id != id {
              if j > 0 { assert catalog[j] == catalog[1..][j - 1]; }
            }
          }
        }
      }
      r
  }

  /** What reading and parsing the catalog file can give: the read fails, the
      YAML does not parse, or it parses to a value whose `vectorStores`
      property is present or missing. */
  datatype CatalogFile =
    | Unreadable(error: string)
    | Unparsable(error: string)
    | Parsed(vectorStores: Option<Catalog>)

  const MISSING_VECTOR_STORES: string :=
    "Invalid vectorstores.yaml structure: missing vectorStores array"

  /** The module-level cache; an empty catalog is truthy in JavaScript and is
      therefore cached like any other. */
  datatype Cache = Cache(loaded: Option<Catalog>)

  const EMPTY_CACHE := Cache(None)

  /** Reading the file without the cache. */
  function ReadCatalog(file: CatalogFile): (r: Result<Catalog>)
    ensures r.Ok? <==> file.Parsed? && file.vectorStores.Some?
    ensures r.Ok? ==> r.value == file.vectorStores.value
    ensures file.Parsed? && file.vectorStores.None? ==> r == Err(MISSING_VECTOR_STORES)
  {
    match file
    case Unreadable(e) => Err(e)
    case Unparsable(e) => Err(e)
    case Parsed(None) => Err(MISSING_VECTOR_STORES)
    case Parsed(Some(c)) => Ok(c)
  }

  /** `loadVectorStoresCatalog`: the cached catalog when there is one,
      otherwise the file, caching it on success; a failure is rethrown and
      leaves the cache empty. */
  function LoadCatalog(file: CatalogFile, cache: Cache): (out: (Result<Catalog>, Cache))
    ensures out.0.Err? ==> out.1 == cache && cache.loaded.None?
    ensures out.0.Ok? ==> out.1 == Cache(Some(out.0.value))
    ensures cache.loaded.Some? ==> out.0 == Ok(cache.loaded.value)
    ensures cache.loaded.None? ==> out.0 == ReadCatalog(file)
  {
    if cache.loaded.Some? then (Ok(cache.loaded.value), cache)
    else
      match ReadCatalog(file)
      case Ok(c) => (Ok(c), Cache(Some(c)))
      case Err(e) => (Err(e), cache)
  }

  /** Once a load succeeds, later loads return the same catalog and leave the
      cache alone, whatever the file now holds. */
  lemma LoadedCatalogIsReused(f1: CatalogFile, f2: CatalogFile, cache: Cache)
    requires LoadCatalog(f1, cache).0.Ok?
    ensures LoadCatalog(f2, LoadCatalog(f1, cache).1) == LoadCatalog(f1, cache)
  {
  }

  /** `clearVectorStoresCache`. */
  function ClearCache(cache: Cache): (r: Cache)
    ensures r.loaded.None?
  {
    EMPTY_CACHE
  }

  /** After a clear, the next load reads the file again. */
  lemma ClearForcesReload(file: CatalogFile, cache: Cache)
    ensures LoadCatalog(file, ClearCache(cache)).0 == ReadCatalog(file)
  {
  }

  /** `getVectorStoresMetadata`: a load failure is swallowed and gives []. */
  function GetVectorStoresMetadata(file: CatalogFile, cache: Cache): (out: (Catalog, Cache))
    ensures LoadCatalog(file, cache).0.Err? ==> out.0 == [] && out.1 == cache
    ensures LoadCatalog(file, cache).0.Ok? ==> out == (LoadCatalog(file, cache).0.value, LoadCatalog(file, cache).1)
  {
    var (r, c) := LoadCatalog(file, cache);
    if r.Ok? then (r.value, c) else ([], c)
  }

  /** `getVectorStoreById`: a load failure propagates. */
  function GetVectorStoreById(file: CatalogFile, cache: Cache, id: string)
    : (out: (Result<Option<VectorStoreDefinition>>, Cache))
    ensures out.0.Err? <==> LoadCatalog(file, cache).0.Err?
    ensures out.1 == LoadCatalog(file, cache).1
    ensures out.0.Ok? ==> out.0.value == FindById(LoadCatalog(file, cache).0.value, id)
  {
    var (r, c) := LoadCatalog(file, cache);
    match r
    case Ok(catalog) => (Ok(FindById(catalog, id)), c)
    case Err(e) => (Err(e), c)
  }

  /** `isValidVectorStoreId`: a load failure propagates. */
  function IsValidVectorStoreId(file: CatalogFile, cache: Cache, id: string): (out: (Result<bool>, Cache))
    ensures out.0.Err? <==> LoadCatalog(file, cache).0.Err?
    ensures out.1 == LoadCatalog(file, cache).1
    ensures out.0.Ok? ==> (out.0.value <==> IsRegistered(LoadCatalog(file, cache).0.value, id))
  {
    var (r, c) := LoadCatalog(file, cache);
    match r
    case Ok(catalog) => (Ok(IsRegistered(catalog, id)), c)
    case Err(e) => (Err(e), c)
  }

  /** Lookup and membership agree: the lookup finds an entry exactly when the
      id is valid, and fail together. */
  lemma LookupAgreesWithValidity(file: CatalogFile, cache: Cache, id: string)
    ensures GetVectorStoreById(file, cache, id).0.Err? <==> IsValidVectorStoreId(file, cache, id).0.Err?
    ensures GetVectorStoreById(file, cache, id).0 == Ok(None) <==> IsValidVectorStoreId(file, cache, id).0 == Ok(false)
    ensures (GetVectorStoreById(file, cache, id).0.Ok? && GetVectorStoreById(file, cache, id).0.value.Some?)
            <==> IsValidVectorStoreId(file, cache, id).0 == Ok(true)
  {
  }
}
