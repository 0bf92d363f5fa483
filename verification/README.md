# Wappenraten quiz backend — a Dafny model

Wappenraten is a coat-of-arms guessing game. The Flask backend shows a German
municipality's coat of arms and asks the player to pick the municipality's
name out of ten options. It keeps per-player statistics and an answer history
in the Flask session. Three pieces of `app.py` are modelled here:

- **The puzzle session** (`session.dfy`, module `Session`). Class
  `PlayerSession` holds the session record: `started` says whether the key
  `correct` is present, and the other fields are `correct`, `wrong`,
  `history` and `used` (the session's `used_municipalities`). Its methods
  are the three handlers:
  - `GetPuzzle`: GET /api/puzzle
  - `SubmitAnswer`: POST /api/submit
  - `Reset`: POST /api/reset

  The global `municipalities` list is passed in as `ms`. The session
  invariant `Valid()` says two things. An empty session holds nothing. The
  used list never holds a name twice.
- **Choosing the answer and the options** (`selection.dfy`, module
  `Selection`). These are pure functions:
  - `Pool`: the municipalities not used yet.
  - `Candidates`: what `random.choice` draws from.
  - `Others`: every entry except the chosen one.
  - `AtIndices`: `random.sample` given distinct indices, and `random.shuffle`
    given a permutation of positions.
  - `BuildOptions`: the options list.

  Randomness is an input. A choice is an index, a sample is a list of
  distinct indices and a shuffle is a permutation of positions.
- **The image-id dictionary and the cache** (`images.dfy`, `cache.dfy`).
  Class `ImageStore` holds the global `image_mappings`. `QueryWikidata` is
  the loop that turns SPARQL rows into records and gives each image a fresh
  id. `GetImage` is the 404-or-fetch lookup of GET /image/<id>. `LoadCache`
  and `FetchMunicipalities` decide between the cache file and a new query.
  Fresh ids (uuid4) come from a list of distinct strings. The cache file's
  state and age are inputs.
- **The global municipality list** (`dataset.dfy`, module `Dataset`). Class
  `Catalogue` holds the global `municipalities`. `Load` is the startup fetch
  (and `initialize`), and `MunicipalitiesRoute` is GET /api/municipalities.

The session keeps no pending puzzle, so every GET /api/puzzle draws a new
question and marks it used. The current question is the last used name. A
wrong answer has no special handling. History entries are appended without
removing duplicates. There are always exactly ten options. Dataset entries
are not filtered by name. The cache file is written in place, and concurrent
refreshes are not coordinated.

The answer's name is guaranteed to occur once among the options only when
the dataset's names are unique. The code does not enforce this: `Others` drops only the
chosen entry itself, not other entries with the same label. That is why
`OptionsAnswerOnce` assumes `UniqueNames`.

## Model

| member | source | states |
|---|---|---|
| Types.Last | app.py:293 | The current question is an element of the used list: its most recent one. |
| Selection.Pool | app.py:239-240 | An entry is available exactly when it is in the dataset and its name is not in the used list. The pool is empty exactly when every dataset name has been used. |
| Selection.Candidates | app.py:239-249 | `random.choice` can draw exactly these entries. While a name is unused, these are the dataset entries with unused names. Once every name was used, they are all dataset entries. There is nothing to draw only when the dataset is empty. |
| Selection.Others | app.py:261-262 | The distractor population holds exactly the dataset entries different from the chosen one. |
| Selection.AtIndices | app.py:261-266 | `random.sample` and `random.shuffle` as index selections. The result has one element per index, holds only elements of the input, and has no duplicate when the input and the indices have none. `ShufflePreservesMultiset` proves that a permutation keeps every element with its multiplicity. |
| Selection.BuildOptions | app.py:265-266 | The options are one more than the distractors, and each is the answer's name or a distractor's name. `OptionsContainAnswer` and `OptionsAnswerOnce` prove that the answer is among them, and with unique names exactly once. |
| Selection.OthersLength | app.py:261-262 | When dataset entries are pairwise different, the population has one entry fewer than the dataset. |
| Selection.SampleFeasible | app.py:261-262 | With at least ten pairwise different entries, `random.sample(..., 9)` can always draw, whichever answer was chosen. |
| Selection.ShufflePreservesMultiset | app.py:266 | Shuffling by a permutation of positions keeps every element with its multiplicity. |
| Selection.OptionsContainAnswer | app.py:261-266 | The options are a permutation of the answer's name plus the distractors' names. They have one more element than there are distractors, and they contain the answer's name. |
| Selection.CandidateNamesDistinct | app.py:261-265 | With unique dataset names, the answer's name and the sampled distractors' names are pairwise different. |
| Selection.OptionsAnswerOnce | app.py:261-266 | With unique dataset names, the options have no duplicates and contain the answer's name at some position, so it occurs exactly once. |
| Session.FirstNamed | app.py:310-313 | Returns the position of the first municipality with the given name, as `next(...)` finds it. No earlier entry has that name. |
| Session.NextUsed | app.py:239-254 | The used list after a puzzle ends with the chosen name. While unused names remain it is the old list plus that name. Once every name was used it holds only that name. `UsedStep` proves that it never holds a name twice. |
| Session.UsedStep | app.py:239-254 | The chosen entry is in the dataset. Its name is new unless every name was used. The new used list ends with it, never holds a name twice, and holds only dataset names if the old one did. |
| Session.PuzzleOptions | app.py:260-266 | A puzzle's options are ten names including the answer's, with no duplicates when dataset names are unique. |
| Session.PlayerSession.GetPuzzle | app.py:224-277 | An empty session is initialised first. Counters and history are unchanged. The used list becomes `NextUsed`: the chosen name appended, after emptying the list if every name was used. The response carries the chosen entry's image and description, the ten options, the counters and the history. |
| Session.PlayerSession.SubmitAnswer | app.py:280-341 | With no used name: 400 and nothing changes. Otherwise the last used name is the answer, and correctness is exact equality. Exactly one counter rises by one. The used list is unchanged. One history entry is appended, with the first matching municipality's image and article and the submitted answer. |
| Session.PlayerSession.Reset | app.py:359-362 | Clears the whole session: no counters, history or used names remain. |
| Session.SubmitAfterReset | app.py:290-292 | Right after a reset, a submission is refused with 400 and the session stays empty. |
| Session.PlayRound | app.py:293-307 | After a puzzle, submitting option k is correct exactly when that option is the chosen name. The chosen name is among the options. The counters' sum rises by one. The history grows by one entry and keeps its earlier entries. |
| ImageProxy.ImagePathRoute | app.py:177-178 | A proxy path '/image/' + id reaches the image route with exactly that id. A path the route accepts is the proxy path of the id it extracts. |
| ImageProxy.RouteImageId | app.py:177 | The `<image_id>` rule extracts an id only from a path '/image/' + id with a non-empty id free of '/'. `ImagePathRoute` proves that every such path gives back its id. |
| ImageProxy.FromBinding | app.py:136-157 | The record built from a row carries the row's label as its name. Its image path routes back to the row's fresh id. |
| ImageProxy.FreshIdsDistinctRecords | app.py:136-157 | Rows whose images got pairwise different ids become pairwise different records. |
| ImageProxy.ImageStore.GetImage | app.py:181-185 | The lookup gives 404 exactly when the id is not a key. Otherwise it gives the origin URL stored for the id. |
| ImageProxy.ImageStore.QueryWikidata | app.py:131-161 | The dictionary is cleared, then rebuilt. It gets one key per row (the row's fresh id), and each key resolves to the row's image URL. Record i carries row i's label, '/image/' + its id, and its description and article, or '' when absent. Records are pairwise different, and each proxy path routes back to its id. |
| Cache.IsCacheValid | app.py:30-37 | A missing file is never valid. `CacheAgeWindow` proves the rest: the age in whole seconds decides like the fractional age (below 86 400 s), 86 399 s is fresh and 86 400 s is stale, and a file fresh at one age is fresh at any younger age. |
| Cache.CacheAgeWindow | app.py:35-37 | For an existing file, validity at the rounded-down age holds exactly when the fractional age is below 24*3600 s. The boundary lies between 86 399 and 86 400 s, and freshness is kept at younger ages. |
| Cache.Loads | app.py:41-50 | Only a file that exists and parses can load. `LoadCache` returns a list exactly when it holds. |
| Cache.LoadCache | app.py:39-50 | Returns a list exactly when the file parses and has both keys with a non-null list. A missing or unparsable file leaves the dictionary alone. A file without 'image_mappings' leaves it empty. Otherwise the dictionary becomes the file's mappings. |
| Cache.FetchMunicipalities | app.py:163-175 | The cached list and mappings are used only when the file exists, is younger than 24*3600 s, and loads. Otherwise the rows are fetched again with fresh ids, and the new list with the new dictionary is what gets saved. |
| Dataset.QueriedImagesResolve | app.py:131-183 | Every record of a fresh query has an image path that the route matches, with an id the dictionary built in the same query knows. |
| Dataset.Catalogue.Load | app.py:215-221 | The global list becomes the fetched one. On a cache hit, it holds the file's list and the dictionary holds the file's mappings. After a new query, record i is built from row i with id i, and each id resolves to its row's image URL. The dictionary holds exactly the new ids, and every image of the global list is served. |
| Dataset.Catalogue.MunicipalitiesRoute | app.py:351-353 | As written: the route returns the fetched list and leaves the global one alone. On a cache hit, the body is the file's list and the dictionary holds the file's mappings. After a new query, body record i is built from row i with id i, and the dictionary holds exactly the new ids, each resolving to its row's image URL. Every global record whose id was not issued again then gets 404. |
| Dataset.Catalogue.MunicipalitiesRouteFixed | app.py:351-353 | Corrected: the fetched list is returned and also becomes the global one, as `initialize` does. On a cache hit, the list and the dictionary are the file's. After a new query, record i is built from row i with id i, the dictionary holds exactly the new ids, each resolving to its row's image URL, and every image of the global list is served. |
| Dataset.StaleRefreshLosesImages | app.py:163-183 | Start without a cache file, then call GET /api/municipalities with a stale cache and new uuids. Afterwards every image of the non-empty global list gets 404. |
| Dataset.StaleRefreshKeepsImages | app.py:163-183 | The same requests with the corrected route: afterwards every image of the global list is served. |

## Left out

- Flask plumbing is not modelled: `jsonify`, `send_file`, the static, list and favicon routes, the secret key and the session cookie. Routing is not modelled, except for the `/image/<image_id>` rule (`RouteImageId`).
- Session expiry is not modelled. Flask checks every session cookie's signature against `PERMANENT_SESSION_LIFETIME` (30 minutes, app.py:20), and the cookie is signed again only by a request that modifies the session. A session not re-signed for 30 minutes is therefore discarded, which acts like `Reset`.
- The session methods take the global list as the parameter `ms`, and `Dataset.Catalogue` holds that list. Nothing ties a `PlayerSession` call to a particular `Catalogue`.
- The SPARQL query text and the network call are not modelled. The result rows are an input, and a failing query (which propagates as an exception) is not modelled.
- Fetching the origin image is not modelled: `requests.get`, its headers and timeout, the content type and the 500 response. `GetImage` stops at the URL it would fetch.
- File I/O is not modelled: `os.path.exists`, `getmtime`, `json.load`, `json.dump` and `makedirs`.
  - The cache file is an input value, and its age is an integer number of seconds.
  - `save_cache` is modelled only by the document it writes. Its swallowed write errors and its timestamp are left out.
  - An `image_mappings` value that is not an object is left out. `dict.update` accepts some of them (an empty list or string, a list of pairs) and loading goes on. Others raise an uncaught error after the `clear()`.
  - A top-level JSON value that is not an object is left out. Indexing it at app.py:46 raises an uncaught `TypeError` after the `clear()`.
  - An `OSError` other than a missing file is left out, for example a directory at the cache path. It escapes the `except` at app.py:48 uncaught. An undecodable file is left out too.
- `uuid.uuid4()` is not modelled. Ids are an input list that must be pairwise distinct, which is what uuid4 provides. `Dataset` also takes ids to be free of '/' and non-empty, as uuid4 strings are, and takes a later query's ids to differ from earlier ones.
- `random.choice`, `random.sample` and `random.shuffle` are not modelled. They are input indices, and the model does not say which choices are equally likely.
- `print` logging and `session.modified` are not modelled.
- Concurrent requests sharing a session or the global dictionary are not modelled.
- Session.PlayerSession.GetPuzzle: requires that the choice can be made and the sample can be drawn. The choice needs a non-empty dataset: with an empty one, `random.choice` raises `IndexError` (app.py:249) before the append. The sample needs at least nine entries other than the chosen one: otherwise `random.sample` raises after the used list was already extended. Neither error path is modelled.
- Session.PlayerSession.SubmitAnswer: requires that the last used name belongs to the dataset. The Python `next(...)` raises otherwise, after the counter was already bumped. That path is not modelled.
- `SubmitAnswer` takes the answer as a string or None (absent or null). Other JSON values, and a request without a JSON body, are not modelled.
- Two branches are unreachable and not modelled: the re-initialisation inside submit (app.py:297-302) and the `'used_municipalities' not in session` check in get_puzzle (app.py:252-253). A non-empty used list always comes with the other three keys.

## Findings

| source | as written | input that shows it | evidently intended | confidence | as-written member | corrected member |
|---|---|---|---|---|---|---|
| app.py:351-353 | GET /api/municipalities calls `fetch_municipalities()`. With a stale cache that rebuilds `image_mappings` with new uuids (app.py:133-139). The global `municipalities` list set at app.py:221 keeps its old '/image/<id>' paths, so every puzzle and history image gets 404 at app.py:181-183 until the process restarts. | Start without a cache file. More than 24 h later, request GET /api/municipalities, then GET /api/puzzle and its image. | The global list is replaced together with the dictionary, as `initialize` (app.py:215-217) does. | high; not executed | Dataset.StaleRefreshLosesImages | Dataset.StaleRefreshKeepsImages |
