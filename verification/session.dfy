/**
 * The per-player quiz state kept in the Flask session cookie, and the three
 * request handlers that change it: GET /api/puzzle, POST /api/submit and
 * POST /api/reset. The dataset is the global municipality list, passed in.
 */
module Session {
  import opened Types
  import opened Selection

  /** Index of the first municipality called `name`: what `next(m for m in ... if m['name'] == name)` finds. */
  function FirstNamed(ms: seq<Municipality>, name: string): (i: nat)
    requires name in Names(ms)
    ensures i < |ms| && ms[i].name == name
    ensures forall j :: 0 <= j < i ==> ms[j].name != name
  {
    if ms[0].name == name then 0
    else
      assert Names(ms[1..]) == Names(ms)[1..];
      1 + FirstNamed(ms[1..], name)
  }

  class PlayerSession {
    /** Whether the session holds the key 'correct'; all four keys are written together. */
    var started: bool
    var correct: nat
    var wrong: nat
    var history: seq<HistoryEntry>
    /** Names already chosen as answers in this round; the last one is the current question. */
    var used: seq<string>

    /**
     * An empty session has no counters, history or used names, and a name
     * is never used twice before the used list is reset.
     */
    ghost predicate Valid()
      reads this
    {
      && (!started ==> correct == 0 && wrong == 0 && history == [] && used == [])
      && NoDup(used)
    }

    /** A new visitor's session is empty. */
    constructor ()
      ensures Valid() && !started
    {
      started, correct, wrong, history, used := false, 0, 0, [], [];
    }

    /**
     * GET /api/puzzle: initialise the session if needed, choose the answer
     * among the municipalities not used yet (all of them once every one has
     * been used, emptying the used list first), record its name as used,
     * and offer it among nine distractors in shuffled order.
     */
    method GetPuzzle(ms: seq<Municipality>, pick: nat, sample: seq<nat>, perm: seq<nat>) returns (p: Puzzle)
      requires Valid()
      requires pick < |Candidates(ms, used)|
      requires |sample| == 9 && DistinctIndices(sample, |Others(ms, Candidates(ms, used)[pick])|)
      requires IsPermutation(perm, 10)
      modifies this
      ensures Valid() && started
      ensures correct == old(correct) && wrong == old(wrong) && history == old(history)
      ensures used == NextUsed(ms, old(used), pick)
      ensures var c := Candidates(ms, old(used))[pick];
        p == Puzzle(c.coatOfArms, c.coatOfArmsDesc, BuildOptions(c, AtIndices(Others(ms, c), sample), perm),
                    correct, wrong, history)
      ensures |p.options| == 10 && Last(used) in p.options
      ensures UniqueNames(ms) ==> NoDup(p.options)
    {
      ghost var before := used;
      if !started {
        started, correct, wrong, history, used := true, 0, 0, [], [];
      }
      var available := Pool(ms, used);
      if available == [] {
        available := ms;
        used := [];
      }
      var c := available[pick];
      used := used + [c.name];
      assert used == NextUsed(ms, before, pick);
      assert NoDup(used) by {
        UsedStep(ms, before, pick);
      }
      var options := BuildOptions(c, AtIndices(Others(ms, c), sample), perm);
      assert |options| == 10 && c.name in options && (UniqueNames(ms) ==> NoDup(options)) by {
        PuzzleOptions(ms, c, sample, perm);
      }
      p := Puzzle(c.coatOfArms, c.coatOfArmsDesc, options, correct, wrong, history);
    }

    /**
     * POST /api/submit: with no used name there is no question and the
     * request is refused with 400; otherwise the last used name is the
     * answer, the submission is scored by exact equality, one counter rises
     * and one history entry is appended.
     */
    method SubmitAnswer(ms: seq<Municipality>, answer: Option<string>) returns (r: SubmitResponse)
      requires Valid()
      requires used != [] ==> Last(used) in Names(ms)
      modifies this
      ensures Valid()
      ensures old(used) == [] ==>
        && r == NoPuzzleInProgress
        && started == old(started) && correct == old(correct) && wrong == old(wrong)
        && history == old(history) && used == old(used)
      ensures old(used) != [] ==>
        var name := Last(old(used));
        var hit := answer == Some(name);
        var m := ms[FirstNamed(ms, name)];
        && started && used == old(used)
        && correct == old(correct) + (if hit then 1 else 0)
        && wrong == old(wrong) + (if hit then 0 else 1)
        && history == old(history) + [HistoryEntry(m.coatOfArms, m.wikiUrl, name, answer, hit)]
        && r == Answered(hit, name, correct, wrong, history)
    {
      if used == [] {
        return NoPuzzleInProgress;
      }
      var name := Last(used);
      var hit := answer == Some(name);
      if hit {
        correct := correct + 1;
      } else {
        wrong := wrong + 1;
      }
      var m := ms[FirstNamed(ms, name)];
      history := history + [HistoryEntry(m.coatOfArms, m.wikiUrl, name, answer, hit)];
      r := Answered(hit, name, correct, wrong, history);
    }

    /** POST /api/reset: `session.clear()`. */
    method Reset()
      modifies this
      ensures Valid() && !started
      ensures correct == 0 && wrong == 0 && history == [] && used == []
    {
      started, correct, wrong, history, used := false, 0, 0, [], [];
    }
  }

  /**
   * The used list after `get_puzzle` chose candidate `pick`: the chosen
   * name appended, to an emptied list when every name had been used.
   */
  function NextUsed(ms: seq<Municipality>, used: seq<string>, pick: nat): (next: seq<string>)
    requires pick < |Candidates(ms, used)|
    ensures next != [] && Last(next) == Candidates(ms, used)[pick].name
    ensures Pool(ms, used) != [] ==> |next| == |used| + 1 && next[..|used|] == used
    ensures Pool(ms, used) == [] ==> |next| == 1
  {
    (if Pool(ms, used) == [] then [] else used) + [Candidates(ms, used)[pick].name]
  }

  /**
   * No repeat until exhaustion: the chosen municipality is one of the
   * dataset, its name is new unless every name was used, the used list
   * never holds a name twice and holds only names of the dataset.
   */
  lemma UsedStep(ms: seq<Municipality>, used: seq<string>, pick: nat)
    requires NoDup(used) && pick < |Candidates(ms, used)|
    ensures var c := Candidates(ms, used)[pick];
      && c in ms && c.name in Names(ms) && Last(NextUsed(ms, used, pick)) == c.name
      && (c.name !in used || forall m :: m in ms ==> m.name in used)
      && NoDup(NextUsed(ms, used, pick))
    ensures (forall n :: n in used ==> n in Names(ms)) ==> forall n :: n in NextUsed(ms, used, pick) ==> n in Names(ms)
  {
    var c := Candidates(ms, used)[pick];
    var i :| 0 <= i < |ms| && ms[i] == c;
    assert Names(ms)[i] == c.name;
    if Pool(ms, used) != [] {
      assert c in Pool(ms, used);
      AppendNoDup(used, c.name);
    }
  }

  lemma AppendNoDup(s: seq<string>, x: string)
    requires x !in s && NoDup(s)
    ensures NoDup(s + [x])
  {
  }

  /** The options offered with answer `c`: ten names, the answer's among them, no duplicate when names are unique. */
  lemma PuzzleOptions(ms: seq<Municipality>, c: Municipality, sample: seq<nat>, perm: seq<nat>)
    requires c in ms && |sample| == 9 && DistinctIndices(sample, |Others(ms, c)|)
    requires IsPermutation(perm, 10)
    ensures var options := BuildOptions(c, AtIndices(Others(ms, c), sample), perm);
      |options| == 10 && c.name in options && (UniqueNames(ms) ==> NoDup(options))
  {
    OptionsContainAnswer(c, AtIndices(Others(ms, c), sample), perm);
    if UniqueNames(ms) {
      OptionsAnswerOnce(ms, c, sample, perm);
    }
  }

  /** Right after a reset there is no question to answer: submit is refused and changes nothing. */
  method SubmitAfterReset(s: PlayerSession, ms: seq<Municipality>, answer: Option<string>) returns (r: SubmitResponse)
    modifies s
    ensures r == NoPuzzleInProgress
    ensures s.Valid() && !s.started && s.correct == 0 && s.wrong == 0 && s.history == [] && s.used == []
  {
    s.Reset();
    r := s.SubmitAnswer(ms, answer);
  }

  /**
   * One round as a player sees it: a puzzle is issued and option k is
   * submitted. The submission is correct exactly when that option is the
   * chosen municipality's name, and the history grows by one entry.
   */
  method PlayRound(s: PlayerSession, ms: seq<Municipality>, pick: nat, sample: seq<nat>, perm: seq<nat>, k: nat)
    returns (p: Puzzle, r: SubmitResponse)
    requires s.Valid()
    requires pick < |Candidates(ms, s.used)|
    requires |sample| == 9 && DistinctIndices(sample, |Others(ms, Candidates(ms, s.used)[pick])|)
    requires IsPermutation(perm, 10)
    requires k < 10
    modifies s
    ensures s.Valid()
    ensures |p.options| == 10
    ensures r.Answered? && r.correctAnswer in p.options
    ensures r.correctAnswer == Candidates(ms, old(s.used))[pick].name
    ensures r.isCorrect <==> p.options[k] == r.correctAnswer
    ensures s.correct + s.wrong == old(s.correct) + old(s.wrong) + 1
    ensures |s.history| == |old(s.history)| + 1 && s.history[..|old(s.history)|] == old(s.history)
  {
    UsedStep(ms, s.used, pick);
    p := s.GetPuzzle(ms, pick, sample, perm);
    r := s.SubmitAnswer(ms, Some(p.options[k]));
  }
}
