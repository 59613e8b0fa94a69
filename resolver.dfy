/**
 * What `TouristChatbot.find_intent` (app.py) computes, stated without its
 * loop: every (intent, pattern) pair is scored against the user's stem
 * set, the best score is the maximum of those scores (0 when nothing
 * scores), the winner is the first pair reaching it, and its tag is
 * returned only when the maximum is strictly above the threshold 0.1.
 */
module Resolver {
  import opened Wrappers
  import opened Similarity
  import opened Catalog

  /**
   * The confidence threshold `0.1`. The float literal lies just above
   * 1/10, and every score is a correctly rounded quotient of two small
   * counts, so `similarity > 0.1` holds exactly when the rational score
   * exceeds 1/10; this real literal is exactly 1/10.
   */
  const Threshold: real := 0.1

  /** The score the scan computes for one pair. */
  function ScoreOf(stem: Stemmer, userWords: set<string>, c: Candidate): real {
    Score(userWords, StemSet(stem, c.pattern))
  }

  /** The scores of all pairs, in scan order. */
  function Scores(stem: Stemmer, userWords: set<string>, cs: seq<Candidate>): seq<real>
  {
    seq(|cs|, k requires 0 <= k < |cs| => ScoreOf(stem, userWords, cs[k]))
  }

  lemma ScoresSnoc(stem: Stemmer, userWords: set<string>, cs: seq<Candidate>, c: Candidate)
    ensures Scores(stem, userWords, cs + [c]) == Scores(stem, userWords, cs) + [ScoreOf(stem, userWords, c)]
  {
  }

  /** The largest score, starting from `highest_score = 0`. */
  function MaxOf(s: seq<real>): (m: real)
    ensures 0.0 <= m
    ensures forall k :: 0 <= k < |s| ==> s[k] <= m
    ensures m == 0.0 || exists k :: 0 <= k < |s| && s[k] == m
  {
    if s == [] then 0.0
    else
      var m' := MaxOf(s[..|s| - 1]);
      if s[|s| - 1] > m' then s[|s| - 1] else m'
  }

  lemma MaxOfSnoc(s: seq<real>, x: real)
    ensures MaxOf(s + [x]) == if x > MaxOf(s) then x else MaxOf(s)
  {
    assert (s + [x])[..|s|] == s;
  }

  /** The index of the first score at least `m` (`|s|` when there is none). */
  function FirstReaching(s: seq<real>, m: real): (k: nat)
    ensures k <= |s|
    ensures forall j :: 0 <= j < k ==> s[j] < m
    ensures k < |s| ==> s[k] >= m
  {
    if s == [] then 0
    else if s[0] >= m then 0
    else 1 + FirstReaching(s[1..], m)
  }

  /** Pair `k` holds the maximum and every earlier pair scores strictly less. */
  ghost predicate IsFirstBest(s: seq<real>, k: int) {
    0 <= k < |s| && s[k] == MaxOf(s) && forall j :: 0 <= j < k ==> s[j] < s[k]
  }

  lemma FirstBestUnique(s: seq<real>, k1: int, k2: int)
    requires IsFirstBest(s, k1) && IsFirstBest(s, k2)
    ensures k1 == k2
  {
  }

  /** A positive maximum is reached, and the first pair reaching it is the first best one. */
  lemma FirstReachingIsFirstBest(s: seq<real>)
    requires MaxOf(s) > 0.0
    ensures IsFirstBest(s, FirstReaching(s, MaxOf(s)))
  {
  }

  /**
   * The state of the scan after the pairs `seen`: `highestScore` is their
   * best score, `bestMatch` is set exactly when it is positive, and then it
   * is the tag of pair `bestIndex`, the first one reaching it.
   */
  ghost predicate ScanState(stem: Stemmer, userWords: set<string>, seen: seq<Candidate>,
                            bestMatch: Option<string>, highestScore: real, bestIndex: nat)
  {
    var s := Scores(stem, userWords, seen);
    && highestScore == MaxOf(s)
    && (bestMatch.Some? <==> highestScore > 0.0)
    && (bestMatch.Some? ==> IsFirstBest(s, bestIndex) && seen[bestIndex].tag == bestMatch.value)
  }

  /**
   * One step of the scan with pair `c`: it becomes the best when it scores
   * strictly more than the best so far; otherwise, an equal score
   * included, nothing changes.
   */
  lemma ScanStep(stem: Stemmer, userWords: set<string>, seen: seq<Candidate>, c: Candidate,
                 bestMatch: Option<string>, highestScore: real, bestIndex: nat,
                 bestMatch': Option<string>, highestScore': real, bestIndex': nat)
    requires ScanState(stem, userWords, seen, bestMatch, highestScore, bestIndex)
    requires ScoreOf(stem, userWords, c) > highestScore ==>
      bestMatch' == Some(c.tag) && highestScore' == ScoreOf(stem, userWords, c) && bestIndex' == |seen|
    requires ScoreOf(stem, userWords, c) <= highestScore ==>
      bestMatch' == bestMatch && highestScore' == highestScore && bestIndex' == bestIndex
    ensures ScanState(stem, userWords, seen + [c], bestMatch', highestScore', bestIndex')
  {
    var s := Scores(stem, userWords, seen);
    var x := ScoreOf(stem, userWords, c);
    ScoresSnoc(stem, userWords, seen, c);
    MaxOfSnoc(s, x);
    if x > highestScore {
      assert IsFirstBest(s + [x], |s|);
    } else if bestMatch.Some? {
      assert IsFirstBest(s + [x], bestIndex);
    }
  }

  /** The tag `find_intent` returns for the user's text. */
  function Resolve(stem: Stemmer, intents: seq<Intent>, text: string): Option<string> {
    var cs := Candidates(intents);
    var s := Scores(stem, StemSet(stem, text), cs);
    var m := MaxOf(s);
    if m > Threshold then
      FirstReachingIsFirstBest(s);
      Some(cs[FirstReaching(s, m)].tag)
    else None
  }

  // ---------------------------------------------------------------------
  // Properties of the resolver
  // ---------------------------------------------------------------------

  /**
   * A tag is returned exactly when the best score is strictly above 0.1
   * (so a best score of exactly 1/10 gives `None`), and it is the tag of
   * the first pair with the best score: a later pair with an equal score
   * does not replace it.
   */
  lemma ResolveIsFirstBest(stem: Stemmer, intents: seq<Intent>, text: string)
    ensures var s := Scores(stem, StemSet(stem, text), Candidates(intents));
      && (Resolve(stem, intents, text).Some? <==> MaxOf(s) > Threshold)
      && (MaxOf(s) == Threshold ==> Resolve(stem, intents, text) == None)
      && forall k :: IsFirstBest(s, k) && MaxOf(s) > Threshold ==>
           Resolve(stem, intents, text) == Some(Candidates(intents)[k].tag)
  {
    var s := Scores(stem, StemSet(stem, text), Candidates(intents));
    if MaxOf(s) > Threshold {
      FirstReachingIsFirstBest(s);
      forall k | IsFirstBest(s, k) ensures k == FirstReaching(s, MaxOf(s)) {
        FirstBestUnique(s, k, FirstReaching(s, MaxOf(s)));
      }
    }
  }

  /** Any returned tag belongs to an intent of the catalog. */
  lemma ResolveTagInCatalog(stem: Stemmer, intents: seq<Intent>, text: string)
    ensures Resolve(stem, intents, text).Some? ==>
      exists i :: 0 <= i < |intents| && intents[i].tag == Resolve(stem, intents, text).value
  {
    var cs := Candidates(intents);
    var s := Scores(stem, StemSet(stem, text), cs);
    if MaxOf(s) > Threshold {
      FirstReachingIsFirstBest(s);
      var k := FirstReaching(s, MaxOf(s));
      assert cs[k].tag == Resolve(stem, intents, text).value;
      CandidatesFromCatalog(intents, k);
    }
  }

  /** An all-zero score sequence has maximum 0. */
  lemma {:induction false} MaxOfZeros(s: seq<real>)
    requires forall k :: 0 <= k < |s| ==> s[k] == 0.0
    ensures MaxOf(s) == 0.0
  {
    if s != [] {
      MaxOfZeros(s[..|s| - 1]);
    }
  }

  /** A text whose stem set is empty scores nothing and matches no intent. */
  lemma EmptyStemSetNoMatch(stem: Stemmer, intents: seq<Intent>, text: string)
    requires StemSet(stem, text) == {}
    ensures Resolve(stem, intents, text) == None
  {
    MaxOfZeros(Scores(stem, StemSet(stem, text), Candidates(intents)));
  }

  /** A text sharing no stem with any pattern matches no intent. */
  lemma NoOverlapNoMatch(stem: Stemmer, intents: seq<Intent>, text: string)
    requires forall c :: c in Candidates(intents) ==> StemSet(stem, text) * StemSet(stem, c.pattern) == {}
    ensures Resolve(stem, intents, text) == None
  {
    var cs := Candidates(intents);
    var s := Scores(stem, StemSet(stem, text), cs);
    forall k | 0 <= k < |s| ensures s[k] == 0.0 {
      assert cs[k] in cs;
    }
    MaxOfZeros(s);
  }

  /**
   * A text with the same (non-empty) stem set as a pattern, where no earlier
   * pair is an exact match, resolves to that pattern's intent.
   */
  lemma ExactMatchWins(stem: Stemmer, intents: seq<Intent>, text: string, k: nat)
    requires k < |Candidates(intents)|
    requires StemSet(stem, text) != {}
    requires StemSet(stem, text) == StemSet(stem, Candidates(intents)[k].pattern)
    requires forall j :: 0 <= j < k ==> StemSet(stem, Candidates(intents)[j].pattern) != StemSet(stem, text)
    ensures Resolve(stem, intents, text) == Some(Candidates(intents)[k].tag)
  {
    var cs := Candidates(intents);
    var s := Scores(stem, StemSet(stem, text), cs);
    assert s[k] == 1.0;
    assert IsFirstBest(s, k);
    ResolveIsFirstBest(stem, intents, text);
  }

  /**
   * With the default catalog, a message whose stem set equals that of
   * "¿Qué lugares puedo visitar en la ciudad?" resolves to
   * `lugares_turisticos`, whatever the stemmer.
   */
  lemma DefaultFirstPatternResolves(stem: Stemmer, text: string)
    requires StemSet(stem, text) != {}
    requires StemSet(stem, text) == StemSet(stem, DefaultCatalog.intents[0].patterns[0])
    ensures Resolve(stem, DefaultCatalog.intents, text) == Some("lugares_turisticos")
  {
    var intents := DefaultCatalog.intents;
    CandidateAt(intents, 0, 0);
    assert intents[..0] == [];
    ExactMatchWins(stem, intents, text, 0);
  }
}
