/**
 * The municipality cache: the list fetched from Wikidata is kept for a day
 * in one JSON file together with the image-id dictionary. The file system and
 * the clock are inputs: the state of the cache file, and its age in whole
 * seconds (the age in fractional seconds, rounded down, which gives the same
 * answer to the comparison with a whole number of seconds).
 */
module Cache {
  import opened Types
  import opened ImageProxy

  /** Freshness window of the cache file: 24 hours. */
  const MaxAgeSeconds: int := 24 * 3600

  /** What reading and parsing the cache file gives. */
  datatype CacheFile =
    | Absent        // no file: FileNotFoundError
    | Unparsable    // json.JSONDecodeError
    | Parsed(imageMappings: Option<map<string, string>>, municipalities: Option<seq<Municipality>>)
      // None for a key that is missing (KeyError); 'municipalities' is also None when it is JSON null

  /** The document `save_cache` writes; the timestamp it adds is not read back and is left out. */
  datatype CacheData = CacheData(municipalities: seq<Municipality>, imageMappings: map<string, string>)

  /** `is_cache_valid`: the file exists and is younger than a day. */
  function IsCacheValid(file: CacheFile, ageSeconds: int): (valid: bool)
    ensures valid ==> file != Absent
  {
    file != Absent && ageSeconds < MaxAgeSeconds
  }

  /**
   * The age in whole seconds decides like the fractional age does: a file
   * is fresh exactly when its age is below a day, and stays fresh at any
   * younger age.
   */
  lemma CacheAgeWindow(file: CacheFile, age: real, younger: int)
    requires file != Absent
    ensures IsCacheValid(file, age.Floor) <==> age < MaxAgeSeconds as real
    ensures IsCacheValid(file, MaxAgeSeconds - 1) && !IsCacheValid(file, MaxAgeSeconds)
    ensures IsCacheValid(file, age.Floor) && younger <= age.Floor ==> IsCacheValid(file, younger)
  {
  }

  /** The file yields a municipality list: both keys are present and the list is not null. */
  function Loads(file: CacheFile): (ok: bool)
    ensures ok ==> file != Absent && file != Unparsable
  {
    file.Parsed? && file.imageMappings.Some? && file.municipalities.Some?
  }

  /**
   * `load_cache`: the dictionary is replaced by the file's mappings and the
   * file's list is returned. A missing or unparsable file changes nothing;
   * a file without 'image_mappings' fails after the dictionary was cleared,
   * and one without a list fails after the dictionary was replaced.
   */
  method LoadCache(store: ImageStore, file: CacheFile) returns (r: Option<seq<Municipality>>)
    modifies store
    ensures r.Some? <==> Loads(file)
    ensures Loads(file) ==> r == file.municipalities
    ensures !file.Parsed? ==> store.mappings == old(store.mappings)
    ensures file.Parsed? && file.imageMappings.None? ==> store.mappings == map[]
    ensures file.Parsed? && file.imageMappings.Some? ==> store.mappings == file.imageMappings.value
  {
    if !file.Parsed? {
      return None;
    }
    store.mappings := map[];
    if file.imageMappings.None? {
      return None;
    }
    store.mappings := file.imageMappings.value;
    r := file.municipalities;
  }

  /**
   * `fetch_municipalities`: a valid cache file that loads provides the list
   * and the dictionary; otherwise the rows are fetched again with fresh ids
   * and the new list and dictionary are written to the cache file.
   * `written` is the document saved, None when nothing is saved.
   */
  method FetchMunicipalities(store: ImageStore, file: CacheFile, ageSeconds: int, bindings: seq<Binding>, ids: seq<string>)
    returns (ms: seq<Municipality>, written: Option<CacheData>)
    requires |ids| == |bindings| && NoDup(ids)
    modifies store
    ensures IsCacheValid(file, ageSeconds) && Loads(file) ==>
      && ms == file.municipalities.value
      && store.mappings == file.imageMappings.value
      && written == None
    ensures !(IsCacheValid(file, ageSeconds) && Loads(file)) ==>
      && |ms| == |bindings| && NoDup(ms)
      && (forall i :: 0 <= i < |bindings| ==> ms[i] == FromBinding(bindings[i], ids[i]))
      && (forall id :: id in store.mappings <==> id in ids)
      && (forall i :: 0 <= i < |bindings| ==> store.GetImage(ids[i]) == FetchOrigin(bindings[i].coatOfArmsUrl))
      && written == Some(CacheData(ms, store.mappings))
  {
    if IsCacheValid(file, ageSeconds) {
      var cached := LoadCache(store, file);
      if cached.Some? {
        return cached.value, None;
      }
    }
    ms := store.QueryWikidata(bindings, ids);
    written := Some(CacheData(ms, store.mappings));
  }
}
