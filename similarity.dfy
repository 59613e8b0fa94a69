/**
 * Stem sets and the overlap score of `TouristChatbot.find_intent` (app.py).
 * NLTK's Spanish word tokenizer followed by the Snowball stemmer is a
 * foreign library; it is the parameter `stem`, an arbitrary function from
 * the normalised text to its sequence of stems.
 */
module Similarity {
  import opened TextNormalizer

  /** `tokenize_and_stem`: the combined NLTK tokenizer and Spanish stemmer. */
  type Stemmer = string -> seq<string>

  /** The set of stems the stemmer produces for the normalised text; duplicates collapse. */
  function StemSet(stem: Stemmer, text: string): set<string>
  {
    set w | w in stem(Preprocess(text))
  }

  /** Normalising a text before handing it over changes nothing: the stem set only sees normalised text. */
  lemma StemSetOfNormalised(stem: Stemmer, text: string)
    ensures StemSet(stem, Preprocess(text)) == StemSet(stem, text)
  {
    PreprocessIdempotent(text);
  }

  /** A subset is never larger than its superset. */
  lemma {:induction false} SubsetCard<T>(a: set<T>, b: set<T>)
    requires a <= b
    ensures |a| <= |b|
    ensures |a| == |b| ==> a == b
  {
    if a != {} {
      var x :| x in a;
      SubsetCard(a - {x}, b - {x});
    }
  }

  /**
   * The Jaccard index, the size of the intersection over the size of the
   * union, computed only when both stem sets are non-empty; exact rational
   * arithmetic stands for the correctly-rounded float division.
   */
  function Jaccard(u: set<string>, p: set<string>): (r: real)
    requires u != {} && p != {}
    ensures 0.0 <= r <= 1.0
    ensures r == 1.0 <==> u == p
    ensures r == 0.0 <==> u * p == {}
  {
    OverlapBounds(u, p);
    QuotientBounds(|u * p|, |u + p|);
    (|u * p| as real) / (|u + p| as real)
  }

  /** A count over a larger count lies in [0, 1], is 1 only for equal counts and 0 only for a zero count. */
  lemma QuotientBounds(a: nat, b: nat)
    requires 0 < b && a <= b
    ensures 0.0 <= (a as real) / (b as real) <= 1.0
    ensures (a as real) / (b as real) == 1.0 <==> a == b
    ensures (a as real) / (b as real) == 0.0 <==> a == 0
  {
    var q := (a as real) / (b as real);
    assert q * (b as real) == a as real;
  }

  /** The facts about the two cardinalities that bound the quotient. */
  lemma OverlapBounds(u: set<string>, p: set<string>)
    requires u != {}
    ensures 0 < |u + p|
    ensures |u * p| <= |u + p|
    ensures |u * p| == |u + p| <==> u == p
  {
    assert u <= u + p;
    SubsetCard(u, u + p);
    assert u * p <= u + p;
    SubsetCard(u * p, u + p);
    if |u * p| == |u + p| {
      assert u * p == u + p;
      assert u <= p by {
        forall x | x in u ensures x in p { assert x in u + p; }
      }
      assert p <= u by {
        forall x | x in p ensures x in u { assert x in u + p; }
      }
    }
    if u == p {
      assert u * p == u + p;
    }
  }

  lemma JaccardSymmetric(u: set<string>, p: set<string>)
    requires u != {} && p != {}
    ensures Jaccard(u, p) == Jaccard(p, u)
  {
    assert u * p == p * u && u + p == p + u;
  }

  /**
   * The score a pair contributes to the scan: the Jaccard index when both
   * stem sets are non-empty, otherwise nothing is computed, which the scan
   * treats as 0 (it can never beat the initial best score of 0).
   */
  function Score(u: set<string>, p: set<string>): (r: real)
    ensures 0.0 <= r <= 1.0
    ensures u == {} || p == {} ==> r == 0.0
    ensures r == 1.0 <==> u == p && u != {}
  {
    if u != {} && p != {} then Jaccard(u, p) else 0.0
  }

  lemma ScoreSymmetric(u: set<string>, p: set<string>)
    ensures Score(u, p) == Score(p, u)
  {
    if u != {} && p != {} { JaccardSymmetric(u, p); }
  }
}
