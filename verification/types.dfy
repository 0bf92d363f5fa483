/**
 * Values shared by the quiz backend: the municipality records served to
 * players, the rows returned by the Wikidata query, the answer history and
 * the JSON bodies the puzzle endpoints return.
 */
module Types {

  datatype Option<+T> = None | Some(value: T) {
    /** Python's `d.get(key, default)` on an optional value. */
    function GetOr(default: T): T {
      match this
      case Some(v) => v
      case None => default
    }
  }

  /** One quiz subject as stored in the global `municipalities` list. */
  datatype Municipality = Municipality(
    name: string,
    coatOfArms: string,      // the proxy path '/image/<id>', never the origin URL
    coatOfArmsDesc: string,  // '' when Wikidata has no blazon text
    wikiUrl: string          // '' when there is no German Wikipedia article
  )

  /** One row of the SPARQL result; the optional columns may be unbound. */
  datatype Binding = Binding(
    municipalityLabel: string,
    coatOfArmsUrl: string,
    coatOfArmsText: Option<string>,
    article: Option<string>
  )

  /**
   * One answered question. `userAnswer` is None when the request body has
   * no `answer` member (or it is null).
   */
  datatype HistoryEntry = HistoryEntry(
    imageUrl: string,
    wikiUrl: string,
    correctAnswer: string,
    userAnswer: Option<string>,
    isCorrect: bool
  )

  /** The body of a GET /api/puzzle response. */
  datatype Puzzle = Puzzle(
    imageUrl: string,
    imageDesc: string,
    options: seq<string>,
    correct: nat,
    wrong: nat,
    history: seq<HistoryEntry>
  )

  /** The outcome of POST /api/submit: the 400 error or the 200 body. */
  datatype SubmitResponse =
    | NoPuzzleInProgress
    | Answered(isCorrect: bool, correctAnswer: string, correct: nat, wrong: nat, history: seq<HistoryEntry>)

  predicate NoDup<T(==)>(s: seq<T>) {
    forall i, j :: 0 <= i < j < |s| ==> s[i] != s[j]
  }

  function Names(ms: seq<Municipality>): (r: seq<string>)
    ensures |r| == |ms|
  {
    seq(|ms|, i requires 0 <= i < |ms| => ms[i].name)
  }

  /** No two municipalities of the list share a display name. */
  predicate UniqueNames(ms: seq<Municipality>) {
    NoDup(Names(ms))
  }

  /** The most recent element: the current question is the last used name. */
  function Last(s: seq<string>): (x: string)
    requires s != []
    ensures x in s
  {
    s[|s| - 1]
  }
}
