/**
 * The knowledge base of `TouristChatbot` (app.py): `self.data`, a JSON
 * object whose "intents" list holds tag / patterns / responses records,
 * the built-in default of `load_intents`, the order in which
 * `find_intent` visits (intent, pattern) pairs, and the lookup by tag of
 * `get_response`.
 */
module Catalog {
  import opened Wrappers

  datatype Intent = Intent(tag: string, patterns: seq<string>, responses: seq<string>)

  /** `self.data`, of shape `{"intents": [...]}`. */
  datatype Catalog = Catalog(intents: seq<Intent>)

  /** What `load_intents` finds: a parsed `data/intents.json`, or no such file. */
  datatype LoadOutcome = Loaded(catalog: Catalog) | FileNotFound

  /** The hard-coded catalog `load_intents` falls back to when the file is missing. */
  const DefaultCatalog: Catalog := Catalog([
    Intent("lugares_turisticos",
      ["¿Qué lugares puedo visitar en la ciudad?",
       "Recomendaciones turísticas",
       "¿Qué ver en Bogotá?"],
      ["Puedes visitar Monserrate, el Museo del Oro y la Candelaria.",
       "Te recomiendo el centro histórico y parques naturales."]),
    Intent("restaurantes",
      ["¿Dónde puedo comer bien?",
       "Restaurantes recomendados",
       "Quiero probar comida típica"],
      ["Puedes probar 'Andrés Carne de Res' o 'Casa Vieja'.",
       "Te recomiendo restaurantes de comida local como 'El Cielo'."]),
    Intent("clima_ciudad",
      ["¿Qué clima hace hoy?",
       "¿Va a llover?",
       "¿Debo llevar abrigo hoy?"],
      ["Hoy se espera un clima soleado con 23°C.",
       "Se pronostican lluvias por la tarde, lleva paraguas."]),
    Intent("horarios_lugares",
      ["¿A qué hora abre el museo?",
       "Horarios del parque",
       "¿Hasta qué hora funciona Monserrate?"],
      ["El Museo del Oro abre de 9 a.m. a 5 p.m.",
       "Monserrate está abierto todos los días hasta las 10 p.m."]),
    Intent("transporte_ciudad",
      ["¿Cómo me muevo en la ciudad?",
       "¿Hay transporte público?",
       "¿Cómo llego al centro?"],
      ["Puedes usar TransMilenio o taxis.",
       "Te recomiendo Uber o transporte público para llegar al centro."])
  ])

  /** `self.data` after `load_intents`: the file's catalog, or the default when the file is missing. */
  function LoadedCatalog(source: LoadOutcome): Catalog
  {
    match source
    case Loaded(catalog) => catalog
    case FileNotFound => DefaultCatalog
  }

  // ---------------------------------------------------------------------
  // The (intent, pattern) pairs in the order `find_intent` scores them
  // ---------------------------------------------------------------------

  datatype Candidate = Candidate(tag: string, pattern: string)

  /** The pairs of one intent, in the order of its patterns. */
  function PatternCandidates(intent: Intent): seq<Candidate>
  {
    seq(|intent.patterns|, j requires 0 <= j < |intent.patterns| => Candidate(intent.tag, intent.patterns[j]))
  }

  /** Scanning pattern j of an intent extends the pairs scanned so far by one. */
  lemma PatternCandidatesPrefix(seen: seq<Candidate>, intent: Intent, j: nat)
    requires j < |intent.patterns|
    ensures seen + PatternCandidates(intent)[..j + 1] ==
      (seen + PatternCandidates(intent)[..j]) + [Candidate(intent.tag, intent.patterns[j])]
  {
    assert PatternCandidates(intent)[..j + 1] ==
      PatternCandidates(intent)[..j] + [Candidate(intent.tag, intent.patterns[j])];
  }

  /** All pairs: intents in catalog order, then patterns within each intent. */
  function Candidates(intents: seq<Intent>): seq<Candidate>
  {
    if intents == [] then []
    else Candidates(intents[..|intents| - 1]) + PatternCandidates(intents[|intents| - 1])
  }

  /** Every pair comes from an intent of the catalog: its tag and one of its patterns. */
  lemma {:induction false} CandidatesFromCatalog(intents: seq<Intent>, k: nat)
    requires k < |Candidates(intents)|
    ensures exists i :: (0 <= i < |intents| && Candidates(intents)[k].tag == intents[i].tag &&
                         Candidates(intents)[k].pattern in intents[i].patterns)
  {
    var n := |intents| - 1;
    var front := Candidates(intents[..n]);
    if k < |front| {
      CandidatesFromCatalog(intents[..n], k);
      var i :| 0 <= i < n && front[k].tag == intents[..n][i].tag && front[k].pattern in intents[..n][i].patterns;
      assert intents[..n][i] == intents[i];
    } else {
      assert Candidates(intents)[k] == PatternCandidates(intents[n])[k - |front|];
    }
  }

  lemma CandidatesSnoc(intents: seq<Intent>, i: nat)
    requires i < |intents|
    ensures Candidates(intents[..i + 1]) == Candidates(intents[..i]) + PatternCandidates(intents[i])
  {
    assert intents[..i + 1][..i] == intents[..i];
  }

  /** Where a pair lands: pattern j of intent i comes after every pattern of the intents before i. */
  lemma {:induction false} CandidateAt(intents: seq<Intent>, i: nat, j: nat)
    requires i < |intents| && j < |intents[i].patterns|
    ensures |Candidates(intents[..i])| + j < |Candidates(intents)|
    ensures Candidates(intents)[|Candidates(intents[..i])| + j] == Candidate(intents[i].tag, intents[i].patterns[j])
  {
    var n := |intents| - 1;
    var front := intents[..n];
    assert Candidates(intents) == Candidates(front) + PatternCandidates(intents[n]);
    if i < n {
      CandidateAt(front, i, j);
      assert front[..i] == intents[..i];
      assert front[i] == intents[i];
    } else {
      assert front == intents[..i];
    }
  }

  // ---------------------------------------------------------------------
  // Lookup by tag
  // ---------------------------------------------------------------------

  /**
   * The index of the first intent whose tag equals `tag`. A tag of `None`
   * (Python's `None`) equals no intent's tag.
   */
  function FirstTagIndex(intents: seq<Intent>, tag: Option<string>): (r: Option<nat>)
    ensures r.Some? ==> r.value < |intents| && Some(intents[r.value].tag) == tag
    ensures r.Some? ==> forall j :: 0 <= j < r.value ==> Some(intents[j].tag) != tag
    ensures r.None? <==> forall j :: 0 <= j < |intents| ==> Some(intents[j].tag) != tag
  {
    if intents == [] then None
    else if Some(intents[0].tag) == tag then Some(0)
    else match FirstTagIndex(intents[1..], tag)
      case None => None
      case Some(k) => Some(k + 1)
  }

  // ---------------------------------------------------------------------
  // Shape of the default catalog
  // ---------------------------------------------------------------------

  const DefaultTags: seq<string> :=
    ["lugares_turisticos", "restaurantes", "clima_ciudad", "horarios_lugares", "transporte_ciudad"]

  /** Five intents, with the five tags in this order, three patterns and two responses each. */
  lemma DefaultCatalogShape()
    ensures |DefaultCatalog.intents| == 5
    ensures forall i :: 0 <= i < 5 ==> DefaultCatalog.intents[i].tag == DefaultTags[i]
    ensures forall i :: 0 <= i < 5 ==> |DefaultCatalog.intents[i].patterns| == 3
    ensures forall i :: 0 <= i < 5 ==> |DefaultCatalog.intents[i].responses| == 2
  {
  }

  /** The default tags are pairwise distinct (they already differ in their first letter). */
  lemma DefaultTagsDistinct()
    ensures forall i, j :: 0 <= i < j < |DefaultCatalog.intents| ==>
      DefaultCatalog.intents[i].tag != DefaultCatalog.intents[j].tag
  {
    DefaultCatalogShape();
    forall i, j | 0 <= i < j < 5 ensures DefaultTags[i] != DefaultTags[j] {
      assert DefaultTags[i][0] != DefaultTags[j][0];
    }
  }

  /** Looking up any default tag finds that very intent. */
  lemma DefaultLookupFindsOwnIntent(i: nat)
    requires i < |DefaultCatalog.intents|
    ensures FirstTagIndex(DefaultCatalog.intents, Some(DefaultCatalog.intents[i].tag)) == Some(i)
  {
    DefaultTagsDistinct();
  }
}
