/**
 * The image proxy: every coat of arms fetched from Wikidata is served under
 * an opaque id, '/image/<id>', and the global `image_mappings` dictionary
 * turns the id back into the origin URL. Ids come from a fresh-id oracle
 * (uuid4 in the application), given here as a list of distinct strings.
 */
module ImageProxy {
  import opened Types

  const ImagePrefix: string := "/image/"

  /** The proxy path under which the image with this id is served. */
  function ImagePath(id: string): (path: string)
    ensures |path| == |ImagePrefix| + |id| && path[|ImagePrefix|..] == id
  {
    ImagePrefix + id
  }

  /** An id the route '/image/<image_id>' can match: non-empty, without '/'. */
  predicate RouteSafe(id: string) {
    id != [] && '/' !in id
  }

  /** The id that the route '/image/<image_id>' extracts from a request path, if it matches. */
  function RouteImageId(path: string): (id: Option<string>)
    ensures id.Some? ==> RouteSafe(id.value) && path == ImagePath(id.value)
  {
    if |path| > |ImagePrefix| && path[..|ImagePrefix|] == ImagePrefix && '/' !in path[|ImagePrefix|..]
    then Some(path[|ImagePrefix|..])
    else None
  }

  /** Requesting a proxy path reaches the route with exactly the id it was built from, and nothing else does. */
  lemma ImagePathRoute(id: string, path: string)
    ensures RouteSafe(id) ==> RouteImageId(ImagePath(id)) == Some(id)
    ensures RouteImageId(path) == Some(id) ==> path == ImagePath(id) && RouteSafe(id)
  {
  }

  /** The municipality record built for one SPARQL row whose image got the id `id`. */
  function FromBinding(b: Binding, id: string): (m: Municipality)
    ensures m.name == b.municipalityLabel
    ensures RouteSafe(id) ==> RouteImageId(m.coatOfArms) == Some(id)
  {
    Municipality(b.municipalityLabel, ImagePath(id), b.coatOfArmsText.GetOr(""), b.article.GetOr(""))
  }

  /** Rows whose images got pairwise different ids give pairwise different records. */
  lemma FreshIdsDistinctRecords(bindings: seq<Binding>, ids: seq<string>, ms: seq<Municipality>)
    requires |ids| == |bindings| == |ms| && NoDup(ids)
    requires forall i :: 0 <= i < |ms| ==> ms[i] == FromBinding(bindings[i], ids[i])
    ensures NoDup(ms)
  {
    forall i, j | 0 <= i < j < |ms|
      ensures ms[i] != ms[j]
    {
      assert ImagePath(ids[i])[|ImagePrefix|..] == ids[i];
      assert ImagePath(ids[j])[|ImagePrefix|..] == ids[j];
      assert ms[i].coatOfArms != ms[j].coatOfArms;
    }
  }

  /** GET /image/<id>: 404 for an unknown id, otherwise the origin image is fetched from this URL. */
  datatype ImageResponse = NotFound | FetchOrigin(originUrl: string)

  /** The process-wide `image_mappings` dictionary. */
  class ImageStore {
    var mappings: map<string, string>

    constructor ()
      ensures mappings == map[]
    {
      mappings := map[];
    }

    /** The lookup in GET /image/<id>; the origin fetch itself is not modelled. */
    function GetImage(imageId: string): (r: ImageResponse)
      reads this
      ensures r == NotFound <==> imageId !in mappings
      ensures r.FetchOrigin? ==> r.originUrl == mappings[imageId]
    {
      if imageId !in mappings then NotFound else FetchOrigin(mappings[imageId])
    }

    /**
     * The loop of `query_wikidata` over the result rows: the dictionary is
     * cleared, then each row gets the next fresh id, the id is mapped to the
     * row's image URL and the row becomes a record pointing at '/image/<id>'.
     */
    method QueryWikidata(bindings: seq<Binding>, ids: seq<string>) returns (ms: seq<Municipality>)
      requires |ids| == |bindings| && NoDup(ids)
      modifies this
      ensures |ms| == |bindings| && NoDup(ms)
      ensures forall i :: 0 <= i < |bindings| ==> ms[i] == FromBinding(bindings[i], ids[i])
      ensures forall id :: id in mappings <==> id in ids
      ensures forall i :: 0 <= i < |bindings| ==> GetImage(ids[i]) == FetchOrigin(bindings[i].coatOfArmsUrl)
      ensures forall i :: 0 <= i < |bindings| && RouteSafe(ids[i]) ==> RouteImageId(ms[i].coatOfArms) == Some(ids[i])
    {
      ms := [];
      mappings := map[];
      var i := 0;
      while i < |bindings|
        invariant 0 <= i <= |bindings| && |ms| == i
        invariant forall j :: 0 <= j < i ==> ms[j] == FromBinding(bindings[j], ids[j])
        invariant forall id :: id in mappings <==> id in ids[..i]
        invariant forall j :: 0 <= j < i ==> mappings[ids[j]] == bindings[j].coatOfArmsUrl
      {
        var imageUrl := bindings[i].coatOfArmsUrl;
        var imageId := ids[i];
        mappings := mappings[imageId := imageUrl];
        ms := ms + [FromBinding(bindings[i], imageId)];
        assert ids[..i + 1] == ids[..i] + [imageId];
        i := i + 1;
      }
      assert ids[..i] == ids;
      FreshIdsDistinctRecords(bindings, ids, ms);
      forall j | 0 <= j < |bindings| && RouteSafe(ids[j])
        ensures RouteImageId(ms[j].coatOfArms) == Some(ids[j])
      {
        ImagePathRoute(ids[j], ms[j].coatOfArms);
      }
    }
  }
}
