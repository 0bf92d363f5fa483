/**
 * The expression parts of `get_puzzle`: which municipalities may be chosen
 * as the answer, which may serve as distractors, and how the options list
 * is assembled. The random choices of Python's `random` module are inputs:
 * `random.choice` is an index, `random.sample` a list of distinct indices and
 * `random.shuffle` a permutation of positions; the last two both select
 * elements by index, with `AtIndices`.
 */
module Selection {
  import opened Types

  /** Every index is below `bound` and no index occurs twice. */
  predicate DistinctIndices(idx: seq<nat>, bound: nat) {
    (forall i :: 0 <= i < |idx| ==> idx[i] < bound) && NoDup(idx)
  }

  /** `p` lists each position 0 .. n-1 exactly once. */
  predicate IsPermutation(p: seq<nat>, n: nat) {
    |p| == n && DistinctIndices(p, n) && (forall j :: 0 <= j < n ==> j in p)
  }

  /** The municipalities whose name is not yet in the used list, in dataset order. */
  function Pool(ms: seq<Municipality>, used: seq<string>): (r: seq<Municipality>)
    ensures forall m :: m in r <==> m in ms && m.name !in used
    ensures |r| <= |ms|
    ensures r == [] <==> forall m :: m in ms ==> m.name in used
  {
    if ms == [] then []
    else (if ms[0].name in used then [] else [ms[0]]) + Pool(ms[1..], used)
  }

  /** What `random.choice` draws from: the pool, or the whole dataset once the pool is empty. */
  function Candidates(ms: seq<Municipality>, used: seq<string>): (r: seq<Municipality>)
    ensures forall m :: m in r <==> m in ms && (m.name !in used || forall n :: n in ms ==> n.name in used)
    ensures |r| == 0 <==> |ms| == 0
  {
    var available := Pool(ms, used);
    if available == [] then ms else available
  }

  /** Every municipality except the chosen one: entries are compared whole, not by name. */
  function Others(ms: seq<Municipality>, c: Municipality): (r: seq<Municipality>)
    ensures forall m :: m in r <==> m in ms && m != c
    ensures |r| <= |ms|
  {
    if ms == [] then []
    else (if ms[0] == c then [] else [ms[0]]) + Others(ms[1..], c)
  }

  /**
   * The elements of `s` at the indices `idx`, in that order: `random.sample`
   * with distinct indices, `random.shuffle` with a permutation (position k of
   * the shuffled list holds element idx[k] of the original).
   */
  function AtIndices<T>(s: seq<T>, idx: seq<nat>): (r: seq<T>)
    requires forall k :: 0 <= k < |idx| ==> idx[k] < |s|
    ensures |r| == |idx|
    ensures forall x :: x in r ==> x in s
    ensures NoDup(s) && NoDup(idx) ==> NoDup(r)
  {
    seq(|idx|, k requires 0 <= k < |idx| => s[idx[k]])
  }

  /** The options of a puzzle: the correct name first, then the distractors' names, shuffled. */
  function BuildOptions(c: Municipality, distractors: seq<Municipality>, perm: seq<nat>): (options: seq<string>)
    requires IsPermutation(perm, 1 + |distractors|)
    ensures |options| == 1 + |distractors|
    ensures forall o :: o in options ==> o == c.name || o in Names(distractors)
  {
    AtIndices([c.name] + Names(distractors), perm)
  }

  /** Applying a permutation of positions keeps every element with its multiplicity. */
  lemma {:induction false} ShufflePreservesMultiset<T>(s: seq<T>, p: seq<nat>)
    requires IsPermutation(p, |s|)
    ensures multiset(AtIndices(s, p)) == multiset(s)
  {
    if |s| > 0 {
      var n := |s|;
      var k := LargestPosition(p, n);
      var q := p[..k] + p[k + 1..];
      DropLargest(p, n, k);
      ShufflePreservesMultiset(s[..n - 1], q);
      ShuffleDropLargest(s, p, k);
      MultisetStep(s, AtIndices(s, p), k);
    }
  }

  /** The position at which a permutation holds the largest index. */
  lemma LargestPosition(p: seq<nat>, n: nat) returns (k: nat)
    requires IsPermutation(p, n) && n > 0
    ensures k < n && p[k] == n - 1
  {
    assert n - 1 in p;
    k :| 0 <= k < n && p[k] == n - 1;
  }

  /** Taking out position k of `r` and the last element of `s` leaves equal multisets only if they were equal. */
  lemma MultisetStep<T>(s: seq<T>, r: seq<T>, k: nat)
    requires |s| > 0 && k < |r| && r[k] == s[|s| - 1]
    requires multiset(r[..k] + r[k + 1..]) == multiset(s[..|s| - 1])
    ensures multiset(r) == multiset(s)
  {
    assert r == r[..k] + [r[k]] + r[k + 1..];
    assert s == s[..|s| - 1] + [s[|s| - 1]];
  }

  /** Deleting the position that holds the largest index leaves a permutation of the smaller range. */
  lemma DropLargest(p: seq<nat>, n: nat, k: nat)
    requires IsPermutation(p, n) && k < n && p[k] == n - 1
    ensures IsPermutation(p[..k] + p[k + 1..], n - 1)
  {
    var q := p[..k] + p[k + 1..];
    assert forall i :: 0 <= i < n - 1 ==> q[i] == (if i < k then p[i] else p[i + 1]);
    forall j | 0 <= j < n - 1
      ensures j in q
    {
      assert j in p;
      var i :| 0 <= i < n && p[i] == j;
      if i < k {
        assert q[i] == j;
      } else {
        assert q[i - 1] == j;
      }
    }
    forall a, b | 0 <= a < b < |q|
      ensures q[a] != q[b]
    {
      var a' := if a < k then a else a + 1;
      var b' := if b < k then b else b + 1;
      assert q[a] == p[a'] && q[b] == p[b'] && a' < b';
    }
  }

  lemma ShuffleDropLargest<T>(s: seq<T>, p: seq<nat>, k: nat)
    requires |s| > 0 && IsPermutation(p, |s|) && k < |s| && p[k] == |s| - 1
    requires IsPermutation(p[..k] + p[k + 1..], |s| - 1)
    ensures AtIndices(s[..|s| - 1], p[..k] + p[k + 1..]) == AtIndices(s, p)[..k] + AtIndices(s, p)[k + 1..]
    ensures AtIndices(s, p)[k] == s[|s| - 1]
  {
  }

  /** Removing one occurrence of an entry that occurs once shortens the list by exactly one. */
  lemma {:induction false} OthersLength(ms: seq<Municipality>, c: Municipality)
    requires NoDup(ms) && c in ms
    ensures |Others(ms, c)| == |ms| - 1
  {
    if ms[0] == c {
      OthersAbsent(ms[1..], c);
    } else {
      OthersLength(ms[1..], c);
    }
  }

  lemma {:induction false} OthersAbsent(ms: seq<Municipality>, c: Municipality)
    requires c !in ms
    ensures Others(ms, c) == ms
  {
    if ms != [] {
      OthersAbsent(ms[1..], c);
    }
  }

  /**
   * `random.sample(others, 9)` can always be drawn when the dataset has at
   * least ten pairwise different entries, whichever answer was chosen.
   */
  lemma SampleFeasible(ms: seq<Municipality>, used: seq<string>, pick: nat)
    requires NoDup(ms) && |ms| >= 10 && pick < |Candidates(ms, used)|
    ensures |Others(ms, Candidates(ms, used)[pick])| >= 9
  {
    OthersLength(ms, Candidates(ms, used)[pick]);
  }

  /** Names taken from distinct positions of a list with unique names are distinct. */
  lemma {:induction false} OthersUniqueNames(ms: seq<Municipality>, c: Municipality)
    requires UniqueNames(ms)
    ensures UniqueNames(Others(ms, c))
  {
    if ms != [] {
      var tail := ms[1..];
      assert UniqueNames(tail) by {
        forall i, j | 0 <= i < j < |tail|
          ensures Names(tail)[i] != Names(tail)[j]
        {
          assert Names(ms)[i + 1] != Names(ms)[j + 1];
        }
      }
      OthersUniqueNames(tail, c);
      var rest := Others(tail, c);
      if ms[0] != c {
        forall j | 0 <= j < |rest|
          ensures ms[0].name != rest[j].name
        {
          assert rest[j] in tail;
          var t :| 0 <= t < |tail| && tail[t] == rest[j];
          assert Names(ms)[0] != Names(ms)[t + 1];
        }
        var r := [ms[0]] + rest;
        assert Others(ms, c) == r;
        forall i, j | 0 <= i < j < |r|
          ensures Names(r)[i] != Names(r)[j]
        {
          if i > 0 {
            assert Names(rest)[i - 1] != Names(rest)[j - 1];
          }
        }
      } else {
        assert Others(ms, c) == rest;
      }
    }
  }

  /** Two members of a list with unique names that share a name are the same entry. */
  lemma SameNameSameEntry(ms: seq<Municipality>, a: Municipality, b: Municipality)
    requires UniqueNames(ms) && a in ms && b in ms && a.name == b.name
    ensures a == b
  {
    var i :| 0 <= i < |ms| && ms[i] == a;
    var j :| 0 <= j < |ms| && ms[j] == b;
    assert Names(ms)[i] == Names(ms)[j];
  }

  /**
   * The ten options of a puzzle: a permutation of the answer plus the sampled
   * distractors, so the answer's name is among them and the count is fixed.
   */
  lemma OptionsContainAnswer(c: Municipality, distractors: seq<Municipality>, perm: seq<nat>)
    requires IsPermutation(perm, 1 + |distractors|)
    ensures |BuildOptions(c, distractors, perm)| == 1 + |distractors|
    ensures multiset(BuildOptions(c, distractors, perm)) == multiset([c.name] + Names(distractors))
    ensures c.name in BuildOptions(c, distractors, perm)
  {
    var pre := [c.name] + Names(distractors);
    ShufflePreservesMultiset(pre, perm);
    assert c.name in multiset(pre);
  }

  /** With unique names, the answer's name followed by the sampled distractors' names has no duplicate. */
  lemma CandidateNamesDistinct(ms: seq<Municipality>, c: Municipality, idx: seq<nat>)
    requires UniqueNames(ms) && c in ms
    requires DistinctIndices(idx, |Others(ms, c)|)
    ensures NoDup([c.name] + Names(AtIndices(Others(ms, c), idx)))
  {
    var d := AtIndices(Others(ms, c), idx);
    DistractorNamesDistinct(ms, c, idx);
    AnswerNotDistractor(ms, c, d);
    ConsNoDup(c.name, Names(d));
  }

  lemma DistractorNamesDistinct(ms: seq<Municipality>, c: Municipality, idx: seq<nat>)
    requires UniqueNames(ms)
    requires DistinctIndices(idx, |Others(ms, c)|)
    ensures NoDup(Names(AtIndices(Others(ms, c), idx)))
  {
    var others := Others(ms, c);
    OthersUniqueNames(ms, c);
    var names := Names(AtIndices(others, idx));
    forall i, j | 0 <= i < j < |names|
      ensures names[i] != names[j]
    {
      assert names[i] == Names(others)[idx[i]] && names[j] == Names(others)[idx[j]];
    }
  }

  lemma AnswerNotDistractor(ms: seq<Municipality>, c: Municipality, d: seq<Municipality>)
    requires UniqueNames(ms) && c in ms
    requires forall m :: m in d ==> m in ms && m != c
    ensures c.name !in Names(d)
  {
    if c.name in Names(d) {
      var j :| 0 <= j < |d| && Names(d)[j] == c.name;
      SameNameSameEntry(ms, c, d[j]);
    }
  }

  lemma ConsNoDup<T>(x: T, s: seq<T>)
    requires x !in s && NoDup(s)
    ensures NoDup([x] + s)
  {
  }

  /**
   * When the dataset's names are unique the options have no duplicate, so
   * the answer's name occurs exactly once among them.
   */
  lemma OptionsAnswerOnce(ms: seq<Municipality>, c: Municipality, idx: seq<nat>, perm: seq<nat>)
    requires UniqueNames(ms) && c in ms
    requires DistinctIndices(idx, |Others(ms, c)|)
    requires IsPermutation(perm, 1 + |idx|)
    ensures NoDup(BuildOptions(c, AtIndices(Others(ms, c), idx), perm))
    ensures exists i :: 0 <= i < |perm| && BuildOptions(c, AtIndices(Others(ms, c), idx), perm)[i] == c.name
  {
    var d := AtIndices(Others(ms, c), idx);
    var pre := [c.name] + Names(d);
    CandidateNamesDistinct(ms, c, idx);
    var options := BuildOptions(c, d, perm);
    forall a, b | 0 <= a < b < |options|
      ensures options[a] != options[b]
    {
      assert options[a] == pre[perm[a]] && options[b] == pre[perm[b]];
    }
    assert 0 in perm;
    var k :| 0 <= k < |perm| && perm[k] == 0;
    assert options[k] == c.name;
  }
}
