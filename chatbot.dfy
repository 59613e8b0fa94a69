/**
 * The class `TouristChatbot` of app.py and the empty-message decision of
 * its `/chat` handler. The stemmer the constructor builds is the parameter
 * `stem`; `random.choice` is the index `choice`.
 */
module Chatbot {
  import opened Wrappers
  import opened TextNormalizer
  import opened Similarity
  import opened Catalog
  import opened Resolver

  const Fallback: string :=
    "🤔 Lo siento, no entiendo tu pregunta. ¿Podrías ser más específico sobre turismo en Bogotá?"

  /** The answer of `/chat` to an empty message. */
  const EmptyMessagePrompt: string := "Por favor, escribe un mensaje."

  /**
   * What `get_response` produces: a text, or the `IndexError` that
   * `random.choice` raises on an intent with an empty response list.
   */
  datatype Response = Text(text: string) | NoResponses

  /** The JSON body of `/chat`: the prompt alone, or the response with the resolved tag. */
  datatype ChatReply = Prompt(prompt: string) | Answer(response: Response, intent: Option<string>)

  /** `random.choice` yields a valid index of the responses of the intent found by tag. */
  predicate ValidChoice(intents: seq<Intent>, tag: Option<string>, choice: nat) {
    match FirstTagIndex(intents, tag)
    case None => true
    case Some(i) => intents[i].responses == [] || choice < |intents[i].responses|
  }

  /**
   * What `get_response(tag)` returns when `random.choice` picks index
   * `choice`: the response of the first intent whose tag equals `tag`, or
   * the fixed fallback when no intent has that tag (always for `None`).
   */
  function Respond(intents: seq<Intent>, tag: Option<string>, choice: nat): (r: Response)
    requires ValidChoice(intents, tag, choice)
    ensures (forall i :: 0 <= i < |intents| ==> Some(intents[i].tag) != tag) ==> r == Text(Fallback)
    ensures forall i ::
      (0 <= i < |intents| && Some(intents[i].tag) == tag && forall j :: 0 <= j < i ==> Some(intents[j].tag) != tag) ==>
        r == if intents[i].responses == [] then NoResponses else Text(intents[i].responses[choice])
  {
    match FirstTagIndex(intents, tag)
    case None => Text(Fallback)
    case Some(i) => if intents[i].responses == [] then NoResponses else Text(intents[i].responses[choice])
  }

  /** With the default catalog any index below 2 is a valid `random.choice`, whatever the tag. */
  lemma DefaultChoiceValid(tag: Option<string>, choice: nat)
    requires choice < 2
    ensures ValidChoice(DefaultCatalog.intents, tag, choice)
  {
    DefaultCatalogShape();
  }

  /**
   * With the default catalog, asking for any of its tags never falls back
   * and never chooses from an empty list: the answer is that intent's
   * response at the chosen index.
   */
  lemma DefaultTagsAnswered(i: nat, choice: nat)
    requires i < |DefaultCatalog.intents| && choice < 2
    ensures ValidChoice(DefaultCatalog.intents, Some(DefaultCatalog.intents[i].tag), choice)
    ensures Respond(DefaultCatalog.intents, Some(DefaultCatalog.intents[i].tag), choice) ==
      Text(DefaultCatalog.intents[i].responses[choice])
  {
    DefaultCatalogShape();
    DefaultLookupFindsOwnIntent(i);
  }

  /**
   * When every intent has more than `choice` responses, whatever tag
   * `find_intent` returns is answered by a response of an intent with that
   * tag, never by the fallback.
   */
  lemma ResolvedTagAnswered(stem: Stemmer, intents: seq<Intent>, text: string, choice: nat)
    requires forall i :: 0 <= i < |intents| ==> choice < |intents[i].responses|
    requires Resolve(stem, intents, text).Some?
    ensures ValidChoice(intents, Resolve(stem, intents, text), choice)
    ensures exists i :: (0 <= i < |intents| && Some(intents[i].tag) == Resolve(stem, intents, text) &&
      Respond(intents, Resolve(stem, intents, text), choice) == Text(intents[i].responses[choice]))
  {
    var tag := Resolve(stem, intents, text);
    ResolveTagInCatalog(stem, intents, text);
    var k := FirstTagIndex(intents, tag);
    assert k.Some?;
    assert Respond(intents, tag, choice) == Text(intents[k.value].responses[choice]);
  }

  /** Python's `if intent`: `None` and the empty tag are both false. */
  function TruthyTag(intent: Option<string>): Option<string>
  {
    if intent.Some? && intent.value != "" then intent else None
  }

  /**
   * Where `/chat` differs from calling `get_response` on the resolved tag:
   * an empty tag is falsy, so it is answered as `None` is, by the fallback,
   * even when the catalog has an intent whose tag is `""`.
   */
  lemma EmptyTagFallsBack(intents: seq<Intent>, i: nat, choice: nat)
    requires i < |intents| && intents[i].tag == "" && intents[i].responses != []
    requires forall j :: 0 <= j < i ==> intents[j].tag != ""
    requires choice < |intents[i].responses|
    ensures Respond(intents, TruthyTag(Some("")), choice) == Text(Fallback)
    ensures Respond(intents, Some(""), choice) == Text(intents[i].responses[choice])
  {
    assert FirstTagIndex(intents, Some("")) == Some(i);
  }

  /** `if intent` is false for `None`, and every non-empty tag is passed on unchanged. */
  lemma TruthyTagKeepsNonEmpty()
    ensures TruthyTag(None) == None
    ensures forall t :: t != "" ==> TruthyTag(Some(t)) == Some(t)
  {
  }

  class TouristChatbot {
    const stem: Stemmer
    var data: Catalog

    /** `__init__`: keep the stemmer, then `load_intents`. */
    constructor (stem: Stemmer, source: LoadOutcome)
      ensures this.stem == stem
      ensures data == LoadedCatalog(source)
    {
      this.stem := stem;
      data := LoadedCatalog(source);
    }

    /** `load_intents`: the parsed file, or the default catalog when the file is missing. */
    method LoadIntents(source: LoadOutcome)
      modifies this
      ensures data == LoadedCatalog(source)
    {
      match source
      case Loaded(catalog) => data := catalog;
      case FileNotFound => data := DefaultCatalog;
    }

    /**
     * Lines 111-125 of `find_intent`, the outer loop over the intents (the
     * inner loop is `ScanPatterns`): `highest_score` ends as the maximum
     * score over all pairs, `best_match` is set exactly when that maximum
     * is positive (a pair scoring 0 never becomes the best), and then it is
     * the tag of the first pair reaching the maximum.
     */
    method ScanCatalog(userWords: set<string>) returns (bestMatch: Option<string>, highestScore: real)
      ensures highestScore == MaxOf(Scores(stem, userWords, Candidates(data.intents)))
      ensures bestMatch.Some? <==> highestScore > 0.0
      ensures bestMatch.Some? ==> exists k ::
        IsFirstBest(Scores(stem, userWords, Candidates(data.intents)), k) &&
        Candidates(data.intents)[k].tag == bestMatch.value
    {
      bestMatch := None;
      highestScore := 0.0;
      ghost var bestIndex: nat := 0;
      var intents := data.intents;
      var i := 0;
      while i < |intents|
        invariant 0 <= i <= |intents|
        invariant ScanState(stem, userWords, Candidates(intents[..i]), bestMatch, highestScore, bestIndex)
      {
        CandidatesSnoc(intents, i);
        bestMatch, highestScore, bestIndex :=
          ScanPatterns(userWords, intents[i], Candidates(intents[..i]), bestMatch, highestScore, bestIndex);
        i := i + 1;
      }
      assert intents[..i] == intents;
    }

    /**
     * The inner loop of `find_intent`, over the patterns of one intent,
     * continuing from the state the pairs `seen` left behind: each pattern
     * is scored only when both stem sets are non-empty, and replaces the
     * best only with a strictly higher score.
     */
    method ScanPatterns(userWords: set<string>, intent: Intent, ghost seen: seq<Candidate>,
                        bestMatch: Option<string>, highestScore: real, ghost bestIndex: nat)
      returns (bestMatch': Option<string>, highestScore': real, ghost bestIndex': nat)
      requires ScanState(stem, userWords, seen, bestMatch, highestScore, bestIndex)
      ensures ScanState(stem, userWords, seen + PatternCandidates(intent), bestMatch', highestScore', bestIndex')
    {
      bestMatch', highestScore', bestIndex' := bestMatch, highestScore, bestIndex;
      ghost var scanned := seen;
      var j := 0;
      while j < |intent.patterns|
        invariant 0 <= j <= |intent.patterns|
        invariant scanned == seen + PatternCandidates(intent)[..j]
        invariant ScanState(stem, userWords, scanned, bestMatch', highestScore', bestIndex')
      {
        var pattern := intent.patterns[j];
        var patternWords := StemSet(stem, pattern);
        ghost var c := Candidate(intent.tag, pattern);
        ghost var (best0, high0, index0) := (bestMatch', highestScore', bestIndex');
        if patternWords != {} && userWords != {} {
          var similarity := Jaccard(userWords, patternWords);
          if similarity > highestScore' {
            highestScore' := similarity;
            bestMatch' := Some(intent.tag);
            bestIndex' := |scanned|;
          }
        }
        ScanStep(stem, userWords, scanned, c, best0, high0, index0, bestMatch', highestScore', bestIndex');
        PatternCandidatesPrefix(seen, intent, j);
        scanned := scanned + [c];
        j := j + 1;
      }
      assert PatternCandidates(intent)[..j] == PatternCandidates(intent);
    }

    /** `find_intent`: the tag `Resolve` specifies, for the stemmer and catalog of this object. */
    method FindIntent(userInput: string) returns (intent: Option<string>)
      ensures intent == Resolve(stem, data.intents, userInput)
    {
      var processed := Preprocess(userInput);
      var userWords := set w | w in stem(processed);
      assert userWords == StemSet(stem, userInput);
      var bestMatch, highestScore := ScanCatalog(userWords);
      intent := if highestScore > Threshold then bestMatch else None;
      ghost var s := Scores(stem, userWords, Candidates(data.intents));
      ResolveIsFirstBest(stem, data.intents, userInput);
      if highestScore > Threshold {
        ghost var k :| IsFirstBest(s, k) && Candidates(data.intents)[k].tag == bestMatch.value;
      }
    }

    /**
     * `get_response`: the first intent whose tag equals `tag` answers with
     * its response at index `choice`; when no tag matches (also for `None`)
     * the answer is the fixed fallback.
     */
    method GetResponse(tag: Option<string>, choice: nat) returns (r: Response)
      requires ValidChoice(data.intents, tag, choice)
      ensures r == Respond(data.intents, tag, choice)
    {
      var intents := data.intents;
      var i := 0;
      while i < |intents|
        invariant 0 <= i <= |intents|
        invariant forall j :: 0 <= j < i ==> Some(intents[j].tag) != tag
      {
        if Some(intents[i].tag) == tag {
          assert FirstTagIndex(intents, tag) == Some(i);
          if intents[i].responses == [] {
            return NoResponses;
          }
          return Text(intents[i].responses[choice]);
        }
        i := i + 1;
      }
      return Text(Fallback);
    }

    /**
     * The decision of the `/chat` handler: an empty message gets the prompt
     * without matching anything; otherwise the resolved tag (respond with
     * `None` when it is falsy) and the response for it.
     */
    method Chat(message: string, choice: nat) returns (reply: ChatReply)
      requires message != "" ==>
        ValidChoice(data.intents, TruthyTag(Resolve(stem, data.intents, message)), choice)
      ensures message == "" ==> reply == Prompt(EmptyMessagePrompt)
      ensures message != "" ==>
        var intent := Resolve(stem, data.intents, message);
        reply == Answer(Respond(data.intents, TruthyTag(intent), choice), intent)
    {
      if message == "" {
        return Prompt(EmptyMessagePrompt);
      }
      var intent := FindIntent(message);
      var response;
      if intent.Some? && intent.value != "" {
        response := GetResponse(intent, choice);
      } else {
        response := GetResponse(None, choice);
      }
      return Answer(response, intent);
    }
  }
}
