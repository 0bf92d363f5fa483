/**
 * The global `municipalities` list that every puzzle is drawn from, and the
 * two places that fetch it: startup (and `initialize`), which assign the
 * global, and GET /api/municipalities, which only returns what it fetched.
 * Fetching may rebuild the image-id dictionary with fresh ids, so a list
 * that is not replaced along with it keeps paths to ids that are gone.
 */
module Dataset {
  import opened Types
  import opened ImageProxy
  import opened Cache

  /** Every record's image path, requested by a browser, reaches an id the dictionary knows. */
  ghost predicate ImagesResolve(ms: seq<Municipality>, mappings: map<string, string>) {
    forall m :: m in ms ==> RouteImageId(m.coatOfArms).Some? && RouteImageId(m.coatOfArms).value in mappings
  }

  /** Records built from freshly queried rows resolve against the dictionary built with them. */
  lemma QueriedImagesResolve(bindings: seq<Binding>, ids: seq<string>, ms: seq<Municipality>, mappings: map<string, string>)
    requires |ids| == |bindings| == |ms|
    requires forall id :: id in ids ==> RouteSafe(id)
    requires forall i :: 0 <= i < |bindings| ==> ms[i] == FromBinding(bindings[i], ids[i])
    requires forall id :: id in mappings <==> id in ids
    ensures ImagesResolve(ms, mappings)
  {
    forall m | m in ms
      ensures RouteImageId(m.coatOfArms).Some? && RouteImageId(m.coatOfArms).value in mappings
    {
      var i :| 0 <= i < |ms| && ms[i] == m;
      assert ids[i] in ids;
    }
  }

  /** The process-wide list the puzzle handlers draw from. */
  class Catalogue {
    var municipalities: seq<Municipality>

    /** The list is empty until startup fills it. */
    constructor ()
      ensures municipalities == []
    {
      municipalities := [];
    }

    /**
     * Startup and `initialize`: fetch the list and make it the global one,
     * so that the list and the dictionary always come from the same fetch.
     */
    method Load(store: ImageStore, file: CacheFile, ageSeconds: int, bindings: seq<Binding>, ids: seq<string>)
      requires |ids| == |bindings| && NoDup(ids)
      requires forall id :: id in ids ==> RouteSafe(id)
      modifies this, store
      ensures IsCacheValid(file, ageSeconds) && Loads(file) ==>
        municipalities == file.municipalities.value && store.mappings == file.imageMappings.value
      ensures !(IsCacheValid(file, ageSeconds) && Loads(file)) ==>
        && |municipalities| == |bindings| && ImagesResolve(municipalities, store.mappings)
        && (forall id :: id in store.mappings <==> id in ids)
      ensures !(IsCacheValid(file, ageSeconds) && Loads(file)) ==>
        forall i :: 0 <= i < |bindings| ==>
          municipalities[i] == FromBinding(bindings[i], ids[i]) && store.GetImage(ids[i]) == FetchOrigin(bindings[i].coatOfArmsUrl)
    {
      var written;
      municipalities, written := FetchMunicipalities(store, file, ageSeconds, bindings, ids);
      if !(IsCacheValid(file, ageSeconds) && Loads(file)) {
        QueriedImagesResolve(bindings, ids, municipalities, store.mappings);
      }
    }

    /**
     * GET /api/municipalities as written: it fetches and returns the list but
     * leaves the global one alone. When the cache has gone stale the fetch
     * rebuilds the dictionary, and every image of the global list whose id
     * was not issued again now gets 404.
     */
    method MunicipalitiesRoute(store: ImageStore, file: CacheFile, ageSeconds: int, bindings: seq<Binding>, ids: seq<string>)
      returns (body: seq<Municipality>)
      requires |ids| == |bindings| && NoDup(ids)
      modifies store
      ensures IsCacheValid(file, ageSeconds) && Loads(file) ==>
        body == file.municipalities.value && store.mappings == file.imageMappings.value
      ensures !(IsCacheValid(file, ageSeconds) && Loads(file)) ==>
        |body| == |bindings| && forall id :: id in store.mappings <==> id in ids
      ensures !(IsCacheValid(file, ageSeconds) && Loads(file)) ==>
        forall i :: 0 <= i < |bindings| ==>
          body[i] == FromBinding(bindings[i], ids[i]) && store.GetImage(ids[i]) == FetchOrigin(bindings[i].coatOfArmsUrl)
      ensures !(IsCacheValid(file, ageSeconds) && Loads(file)) ==>
        forall m :: m in municipalities && RouteImageId(m.coatOfArms).Some? && RouteImageId(m.coatOfArms).value !in ids ==>
          store.GetImage(RouteImageId(m.coatOfArms).value) == NotFound
    {
      var written;
      body, written := FetchMunicipalities(store, file, ageSeconds, bindings, ids);
    }

    /** GET /api/municipalities with the fetched list made the global one, as `initialize` does. */
    method MunicipalitiesRouteFixed(store: ImageStore, file: CacheFile, ageSeconds: int, bindings: seq<Binding>, ids: seq<string>)
      returns (body: seq<Municipality>)
      requires |ids| == |bindings| && NoDup(ids)
      requires forall id :: id in ids ==> RouteSafe(id)
      modifies this, store
      ensures body == municipalities
      ensures IsCacheValid(file, ageSeconds) && Loads(file) ==>
        municipalities == file.municipalities.value && store.mappings == file.imageMappings.value
      ensures !(IsCacheValid(file, ageSeconds) && Loads(file)) ==>
        && |municipalities| == |bindings| && ImagesResolve(municipalities, store.mappings)
        && (forall id :: id in store.mappings <==> id in ids)
      ensures !(IsCacheValid(file, ageSeconds) && Loads(file)) ==>
        forall i :: 0 <= i < |bindings| ==>
          municipalities[i] == FromBinding(bindings[i], ids[i]) && store.GetImage(ids[i]) == FetchOrigin(bindings[i].coatOfArmsUrl)
    {
      Load(store, file, ageSeconds, bindings, ids);
      body := municipalities;
    }
  }

  /**
   * The application starts without a cache file, and later a request to
   * GET /api/municipalities finds the cache stale. The new uuids differ from
   * the old ones, so no image of any puzzle can be served any more.
   */
  method StaleRefreshLosesImages(c: Catalogue, store: ImageStore, bindings0: seq<Binding>, ids0: seq<string>,
                                 file: CacheFile, ageSeconds: int, bindings: seq<Binding>, ids: seq<string>)
    requires |ids0| == |bindings0| > 0 && NoDup(ids0) && (forall id :: id in ids0 ==> RouteSafe(id))
    requires |ids| == |bindings| && NoDup(ids) && (forall id :: id in ids ==> id !in ids0)
    requires !IsCacheValid(file, ageSeconds)
    modifies c, store
    ensures c.municipalities != []
    ensures forall m :: m in c.municipalities ==>
      RouteImageId(m.coatOfArms).Some? && store.GetImage(RouteImageId(m.coatOfArms).value) == NotFound
  {
    c.Load(store, Absent, 0, bindings0, ids0);
    ghost var before := c.municipalities;
    assert forall m :: m in before ==> RouteImageId(m.coatOfArms).Some? && RouteImageId(m.coatOfArms).value in ids0;
    var _ := c.MunicipalitiesRoute(store, file, ageSeconds, bindings, ids);
  }

  /** The same sequence of requests with the fixed route: every image of the global list is served. */
  method StaleRefreshKeepsImages(c: Catalogue, store: ImageStore, bindings0: seq<Binding>, ids0: seq<string>,
                                 file: CacheFile, ageSeconds: int, bindings: seq<Binding>, ids: seq<string>)
    requires |ids0| == |bindings0| > 0 && NoDup(ids0) && (forall id :: id in ids0 ==> RouteSafe(id))
    requires |ids| == |bindings| && NoDup(ids) && (forall id :: id in ids ==> RouteSafe(id) && id !in ids0)
    requires !IsCacheValid(file, ageSeconds)
    modifies c, store
    ensures |c.municipalities| == |bindings|
    ensures forall m :: m in c.municipalities ==>
      RouteImageId(m.coatOfArms).Some? && store.GetImage(RouteImageId(m.coatOfArms).value).FetchOrigin?
  {
    c.Load(store, Absent, 0, bindings0, ids0);
    var _ := c.MunicipalitiesRouteFixed(store, file, ageSeconds, bindings, ids);
  }
}
