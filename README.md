# Tourist chatbot intent matcher, modelled in Dafny

This project models the intent-matching engine of the `TouristChatbot` class
in `app.py`. This is a rule-based Spanish-language responder for tourism
questions about Bogotá. The engine works in four steps:

1. A user message is normalised: it is lower-cased and every ASCII
   punctuation character is removed.
2. The normalised message is tokenised and stemmed into a set of stems.
3. Each (intent, pattern) pair of the catalog is scored by the Jaccard index
   of the two stem sets. The pairs are visited in catalog order.
4. The first pair with the strictly highest score wins. Its intent is
   accepted only if that score is strictly above 0.1. The accepted intent
   answers with one of its canned responses, and otherwise a fixed fallback
   is returned.

Modules, in dependency order:

- `Wrappers`: `Option`, which stands for Python's `None`-or-value.
- `TextNormalizer`: `preprocess_text`. It contains `string.punctuation`, a
  lower-casing function and the punctuation filter, with their properties.
- `Similarity`: the stem set of a text and the Jaccard score.
- `Catalog`: intents, the hard-coded default catalog, the order of the scan,
  and lookup by tag.
- `Resolver`: a specification of `find_intent` that has no loop. It takes the
  maximum score, then the first pair reaching it, then applies the strict
  threshold. The module also holds the lemmas about that specification.
- `Chatbot`: the `TouristChatbot` class. The field `data` is the catalog, and
  the methods `LoadIntents`, `FindIntent` (on top of `ScanCatalog` and
  `ScanPatterns`), `GetResponse` and `Chat` are each proved against the
  specification functions.

Three things the engine uses lie outside its own logic. Each becomes an
input of the model:

- NLTK's Spanish tokenizer and Snowball stemmer become the parameter
  `stem: string -> seq<string>`. The model takes the set of its result, as
  the source's `set(...)` does.
- `random.choice` becomes an index `choice` into the chosen intent's
  responses.
- Whether `data/intents.json` exists becomes the value `LoadOutcome`, which
  is either `Loaded(catalog)` or `FileNotFound`.

Scores are exact rationals (`real`). Python's float division is correctly
rounded, so equal quotients of small counts give equal floats, and the
comparisons `>` and `> 0.1` behave the same on floats as on exact rationals.
The float `0.1` lies just above 1/10, so a best score of exactly 1/10 does
not match. The model therefore uses the strict test `score > 1/10`.

## Model

| member | source | states |
|---|---|---|
| `TextNormalizer.LowerChar` | app.py:96 | definition of `str.lower` on one character (ASCII and Latin-1 capitals move up by 0x20, U+00D7 and all else unchanged); its meaning is stated by `LowerCharFacts` |
| `TextNormalizer.Lower` | app.py:96 | definition of `text.lower()`, character by character; its meaning is stated by `LowerConcat` and `LowerCharFacts` |
| `TextNormalizer.StripPunctuation` | app.py:97 | definition of the punctuation filter; its meaning is stated by `StripPunctuationMembers`, `StripPunctuationConcat` and `StripPunctuationKeepsClean` |
| `TextNormalizer.Preprocess` | app.py:94-98 | definition of `preprocess_text`, lower-casing then filtering; its meaning is stated by `PreprocessMembers`, `PreprocessConcat`, `PreprocessChar` and `PreprocessIdempotent` |
| `TextNormalizer.Punctuation` | app.py:97 | definition of `string.punctuation` as a character literal; its meaning is stated by `PunctuationIsAsciiRanges` |
| `TextNormalizer.PunctuationIsAsciiRanges` | app.py:97 | `string.punctuation` has 32 characters, and they are exactly the ASCII ranges `!`..`/`, `:`..`@`, `[`..`` ` `` and `{`..`~` |
| `TextNormalizer.LowerCharFacts` | app.py:96 | lower-casing a character is idempotent and never turns a character into punctuation or out of it |
| `TextNormalizer.StripPunctuationConcat` | app.py:97 | the comprehension filter distributes over concatenation, so the characters it keeps stay in order |
| `TextNormalizer.StripPunctuationMembers` | app.py:97 | the filtered text is no longer than the input, and it contains exactly the input's non-punctuation characters |
| `TextNormalizer.StripPunctuationKeepsClean` | app.py:97 | a text without punctuation passes the filter unchanged |
| `TextNormalizer.LowerConcat` | app.py:96 | lower-casing distributes over concatenation |
| `TextNormalizer.PreprocessConcat` | app.py:94-98 | `preprocess_text(a + b) == preprocess_text(a) + preprocess_text(b)` |
| `TextNormalizer.PreprocessChar` | app.py:94-98 | one character becomes nothing if it is punctuation, and its lower-case form otherwise |
| `TextNormalizer.PreprocessMembers` | app.py:94-98 | no punctuation survives; every non-punctuation input character survives lower-cased; nothing else appears; the output is no longer than the input |
| `TextNormalizer.NonAsciiMarkKept` | app.py:94-98 | a non-ASCII character without a lower-case mapping is kept in front of the rest |
| `TextNormalizer.SpanishMarksKept` | app.py:94-98 | the marks `¿` and `¡` survive preprocessing |
| `TextNormalizer.PreprocessIdempotent` | app.py:94-98 | applying `preprocess_text` twice gives the same result as applying it once |
| `Similarity.StemSet` | app.py:100-117 | definition: the set (lines 109 and 117) of the stems that `tokenize_and_stem` yields for the preprocessed text; its meaning is stated by `StemSetOfNormalised` |
| `Similarity.StemSetOfNormalised` | app.py:108-109 | normalising a text before taking its stem set changes nothing |
| `Similarity.Jaccard` | app.py:120-121 | for non-empty sets the score lies in [0, 1], equals 1 exactly when the sets are equal, and equals 0 exactly when they are disjoint |
| `Similarity.JaccardSymmetric` | app.py:121 | the Jaccard index is symmetric in its two sets |
| `Similarity.Score` | app.py:120-123 | a pair's score is 0 when either stem set is empty (no similarity is computed), lies in [0, 1], and is 1 exactly for equal non-empty sets |
| `Similarity.ScoreSymmetric` | app.py:120-121 | a pair's score is symmetric |
| `Catalog.LoadedCatalog` | app.py:22-28 | definition of `self.data` after `load_intents`; what it promises is stated by `TouristChatbot.LoadIntents` and `DefaultCatalogShape` |
| `Catalog.PatternCandidates` | app.py:115 | definition of the pairs of one intent in pattern order; their position in the scan is stated by `CandidateAt` |
| `Catalog.Candidates` | app.py:114-115 | definition of all (tag, pattern) pairs in scan order; its meaning is stated by `CandidateAt` and `CandidatesFromCatalog` |
| `Catalog.CandidatesFromCatalog` | app.py:114-115 | every scanned pair carries the tag and one pattern of an intent of the catalog |
| `Catalog.CandidateAt` | app.py:114-115 | pattern `j` of intent `i` is scanned right after all patterns of the intents before `i` |
| `Catalog.FirstTagIndex` | app.py:131-132 | the lookup finds the first intent whose tag equals the argument; it finds none exactly when no tag equals it, which is always the case for `None` |
| `Catalog.DefaultCatalog` | app.py:28-91 | definition of the built-in catalog, the 5 intents with their 30 strings as literals; its meaning is stated by `DefaultCatalogShape`, `DefaultTagsDistinct` and `DefaultLookupFindsOwnIntent` |
| `Catalog.DefaultCatalogShape` | app.py:28-91 | the default catalog has 5 intents with the five listed tags, 3 patterns each and 2 responses each |
| `Catalog.DefaultTagsDistinct` | app.py:28-91 | the default tags are pairwise distinct |
| `Catalog.DefaultLookupFindsOwnIntent` | app.py:28-91 | looking up any default tag finds its own intent |
| `Resolver.Threshold` | app.py:127 | the constant 0.1 as the exact rational 1/10; the strict comparison against it is stated by `ResolveIsFirstBest` |
| `Resolver.ScoreOf` | app.py:116-121 | definition of the score of one (tag, pattern) pair: `Score` of the user's stem set and the pattern's; its range, its zero on empty sets and its symmetry are stated by `Score` and `ScoreSymmetric` |
| `Resolver.Resolve` | app.py:106-127 | loop-free definition of `find_intent`; its meaning is stated by `ResolveIsFirstBest` and `ResolveTagInCatalog`, and `TouristChatbot.FindIntent` is proved equal to it |
| `Resolver.MaxOf` | app.py:112-124 | the best score starts at 0: it is non-negative, bounds every score, and is 0 or one of the scores |
| `Resolver.FirstReaching` | app.py:123 | returns the first index whose score reaches the bound; every earlier score is strictly below it |
| `Resolver.FirstReachingIsFirstBest` | app.py:114-125 | a positive maximum is reached, and the first pair reaching it is the first best pair |
| `Resolver.ScanStep` | app.py:123-125 | a pair scoring strictly above the best so far becomes the best; a pair scoring lower or equal changes nothing; the scan state is kept |
| `Resolver.ResolveIsFirstBest` | app.py:125-127 | a tag is returned exactly when the maximum score is strictly above 0.1 (so exactly 1/10 gives `None`), and it is the tag of the earliest pair with the maximum score |
| `Resolver.ResolveTagInCatalog` | app.py:125-127 | any returned tag is the tag of some intent of the catalog |
| `Resolver.EmptyStemSetNoMatch` | app.py:109-127 | if the user's stem set is empty, nothing is scored and the result is `None` |
| `Resolver.NoOverlapNoMatch` | app.py:120-127 | a message sharing no stem with any pattern matches no intent |
| `Resolver.ExactMatchWins` | app.py:114-127 | a message whose non-empty stem set equals a pattern's, with no earlier exact match, resolves to that pattern's intent |
| `Resolver.DefaultFirstPatternResolves` | app.py:30-35 | with the default catalog and any stemmer, a message with the same non-empty stem set as "¿Qué lugares puedo visitar en la ciudad?" resolves to `lugares_turisticos` |
| `Chatbot.Fallback` | app.py:134 | definition of the fixed reply for an unknown tag; when it is given is stated by `Respond` and `EmptyTagFallsBack` |
| `Chatbot.EmptyMessagePrompt` | app.py:148 | definition of the fixed reply to an empty message; when it is given is stated by `TouristChatbot.Chat` |
| `Chatbot.Respond` | app.py:129-134 | the response is that of the first intent with the tag at the chosen index; it is the fallback when no intent has the tag; it is `NoResponses` (the `IndexError`) when that intent has no responses |
| `Chatbot.DefaultChoiceValid` | app.py:133 | with the default catalog, any index below 2 is a valid `random.choice`, whatever the tag |
| `Chatbot.DefaultTagsAnswered` | app.py:129-134 | with the default catalog, `get_response` on any of its tags returns that intent's response at the chosen index and never the fallback |
| `Chatbot.ResolvedTagAnswered` | app.py:127-133 | when every intent has enough responses, a tag returned by `find_intent` is answered by the response of an intent with that tag |
| `Chatbot.ValidChoice` | app.py:133 | definition of what `random.choice` may return: an index into the responses of the first intent with that tag; no constraint when no intent has the tag or its list is empty, where `Respond` gives the fallback or `NoResponses`; `DefaultChoiceValid` states that any index below 2 qualifies for the default catalog |
| `Chatbot.TruthyTag` | app.py:152 | definition of Python's `if intent`; its effect is stated by `EmptyTagFallsBack` and `TruthyTagKeepsNonEmpty` |
| `Chatbot.EmptyTagFallsBack` | app.py:152 | an empty resolved tag is falsy, so `/chat` answers it with the fallback even when an intent has tag `""`, whereas `get_response("")` would answer with that intent's response |
| `Chatbot.TruthyTagKeepsNonEmpty` | app.py:152 | `None` stays `None`, and every non-empty tag is passed on unchanged |
| `Chatbot.TouristChatbot.constructor` | app.py:18-20 | the object keeps the stemmer, and its catalog is the loaded one or the default |
| `Chatbot.TouristChatbot.LoadIntents` | app.py:22-91 | `self.data` becomes the parsed file, or the default catalog when the file is not found |
| `Chatbot.TouristChatbot.ScanCatalog` | app.py:111-125 | `highest_score` ends as the maximum score over all pairs; `best_match` is set exactly when that maximum is positive; then `best_match` is the tag of the first pair with the maximum |
| `Chatbot.TouristChatbot.ScanPatterns` | app.py:115-125 | after one intent's patterns, `highest_score` is the maximum over all pairs seen so far, `best_match` is set exactly when it is positive, and it names the first pair with that maximum |
| `Chatbot.TouristChatbot.FindIntent` | app.py:106-127 | returns exactly the tag `Resolve` specifies for the object's stemmer and catalog |
| `Chatbot.TouristChatbot.GetResponse` | app.py:129-134 | the loop with early return computes `Respond` |
| `Chatbot.TouristChatbot.Chat` | app.py:144-157 | an empty message gets the fixed prompt and no tag; any other message gets the resolved tag and the response to that tag if it is truthy, and to `None` otherwise |

## Left out

- Flask wiring is not modelled: app creation, `index`, the JSON request and
  response encoding of `/chat`, and `app.run` (app.py:15, 139-160). Only the
  decision `chat` makes is modelled. The message is taken to be a string.
  The model does not handle a JSON `message` value of another type.
- The NLTK resource download is not modelled (app.py:9-13).
- The internals of `nltk.word_tokenize` and `SnowballStemmer('spanish')` are
  foreign library code (app.py:19, 102-103). They are the uninterpreted
  parameter `stem`.
- Reading and parsing `data/intents.json` is not modelled (app.py:24-26).
  It is file I/O and JSON parsing, so it is reduced to the outcome
  `Loaded(catalog)` or `FileNotFound`. A malformed file, or one without the
  `intents` / `tag` / `patterns` / `responses` keys, raises in the source.
  The model does not represent that case.
- `random.choice` is an index (app.py:133), and its randomness is not
  modelled. `GetResponse` and `Chat` require the index to be valid for the
  intent that is found.
- IEEE floating point is not modelled. Scores are exact rationals. This can
  differ only when two distinct quotients round to the same double, which
  needs stem sets with millions of elements.
- LowerChar: lower-casing covers ASCII and the Latin-1 supplement only. That
  covers every accented capital of Spanish. Other Unicode case mappings of
  Python's `str.lower` are not modelled, including final-sigma handling and
  the two-character lower case of `İ`. Characters outside that range keep
  their case in the model.
- The two nested loops of `find_intent` are verified as two methods:
  `ScanCatalog` for the loop over intents and `ScanPatterns` for the loop
  over one intent's patterns. The state they update is the same as in the
  source.
- `static/js/script.js` is browser UI (DOM updates, event listeners,
  `fetch`, timers) and is not part of this model.
