/**
 * Text normalisation of `TouristChatbot.preprocess_text` (app.py):
 * lower-case the text, then drop every character of Python's
 * `string.punctuation`.
 */
module TextNormalizer {

  /** Python's `string.punctuation`: the 32 ASCII punctuation characters. */
  const Punctuation: string := "!\"#$%&'()*+,-./:;<=>?@[\\]^_`{|}~"

  predicate IsPunctuation(c: char) {
    c in Punctuation
  }

  /** `string.punctuation` is exactly the four ASCII ranges ! .. /, : .. @, [ .. ` and { .. ~. */
  lemma PunctuationIsAsciiRanges(c: char)
    ensures |Punctuation| == 32
    ensures IsPunctuation(c) <==>
      ('!' <= c <= '/') || (':' <= c <= '@') || ('[' <= c <= '`') || ('{' <= c <= '~')
  {
  }

  /**
   * Python's `str.lower` on one character, for ASCII and the Latin-1
   * supplement (the accented capitals of Spanish: Á, É, Í, Ñ, Ó, Ú, Ü, ...).
   * U+00D7 (the multiplication sign) has no lower-case form; every other
   * code point from U+00C0 to U+00DE maps to the one 0x20 above it.
   */
  function LowerChar(c: char): char
  {
    if 'A' <= c <= 'Z' || ('À' <= c <= 'Þ' && c != '×') then
      (c as int + 32) as char
    else
      c
  }

  /** Python's `text.lower()`, character by character. */
  function Lower(text: string): string
  {
    seq(|text|, i requires 0 <= i < |text| => LowerChar(text[i]))
  }

  /** Keeps, in order, every character that is not in `string.punctuation`. */
  function StripPunctuation(text: string): (r: string)
  {
    if text == [] then []
    else if IsPunctuation(text[0]) then StripPunctuation(text[1..])
    else [text[0]] + StripPunctuation(text[1..])
  }

  /** `TouristChatbot.preprocess_text` */
  function Preprocess(text: string): (r: string)
  {
    StripPunctuation(Lower(text))
  }

  // ---------------------------------------------------------------------
  // Properties of the normaliser
  // ---------------------------------------------------------------------

  /** Lower-casing is idempotent and never turns a character into, or out of, punctuation. */
  lemma LowerCharFacts(c: char)
    ensures LowerChar(LowerChar(c)) == LowerChar(c)
    ensures IsPunctuation(LowerChar(c)) <==> IsPunctuation(c)
  {
    PunctuationIsAsciiRanges(c);
    PunctuationIsAsciiRanges(LowerChar(c));
  }

  /** The filter distributes over concatenation: it keeps the order of what it keeps. */
  lemma {:induction false} StripPunctuationConcat(a: string, b: string)
    ensures StripPunctuation(a + b) == StripPunctuation(a) + StripPunctuation(b)
  {
    if a != [] {
      assert (a + b)[1..] == a[1..] + b;
      StripPunctuationConcat(a[1..], b);
    } else {
      assert a + b == b;
    }
  }

  /** The output contains no punctuation and only characters of the input. */
  lemma {:induction false} StripPunctuationMembers(text: string)
    ensures |StripPunctuation(text)| <= |text|
    ensures forall c :: c in StripPunctuation(text) <==> c in text && !IsPunctuation(c)
  {
    if text != [] {
      StripPunctuationMembers(text[1..]);
      assert text == [text[0]] + text[1..];
    }
  }

  /** A text without punctuation is left as it is. */
  lemma {:induction false} StripPunctuationKeepsClean(text: string)
    requires forall i :: 0 <= i < |text| ==> !IsPunctuation(text[i])
    ensures StripPunctuation(text) == text
  {
    if text != [] {
      StripPunctuationKeepsClean(text[1..]);
    }
  }

  /** Lower-casing works character by character, so it distributes over concatenation. */
  lemma LowerConcat(a: string, b: string)
    ensures Lower(a + b) == Lower(a) + Lower(b)
  {
    var l, r := Lower(a + b), Lower(a) + Lower(b);
    assert |l| == |r|;
    forall i | 0 <= i < |l| ensures l[i] == r[i] {
      if i < |a| { assert (a + b)[i] == a[i]; } else { assert (a + b)[i] == b[i - |a|]; }
    }
  }

  /**
   * Preprocessing distributes over concatenation: every character that is
   * kept stays in its place relative to the others.
   */
  lemma PreprocessConcat(a: string, b: string)
    ensures Preprocess(a + b) == Preprocess(a) + Preprocess(b)
  {
    LowerConcat(a, b);
    StripPunctuationConcat(Lower(a), Lower(b));
  }

  /** One character becomes nothing when it is punctuation and its lower-case form otherwise. */
  lemma PreprocessChar(c: char)
    ensures Preprocess([c]) == if IsPunctuation(c) then [] else [LowerChar(c)]
  {
    var l := Lower([c]);
    assert l == [LowerChar(c)];
    assert l[1..] == [];
    LowerCharFacts(c);
    assert StripPunctuation(l[1..]) == [];
    assert StripPunctuation(l) == if IsPunctuation(l[0]) then [] else [l[0]];
  }

  /** No character of `string.punctuation` survives, and no character is invented. */
  lemma PreprocessMembers(text: string)
    ensures |Preprocess(text)| <= |text|
    ensures forall c :: c in Preprocess(text) ==> !IsPunctuation(c)
    ensures forall i :: 0 <= i < |text| && !IsPunctuation(text[i]) ==> LowerChar(text[i]) in Preprocess(text)
    ensures forall c :: c in Preprocess(text) ==> exists i :: 0 <= i < |text| && c == LowerChar(text[i])
  {
    StripPunctuationMembers(Lower(text));
    forall i | 0 <= i < |text| && !IsPunctuation(text[i])
      ensures LowerChar(text[i]) in Preprocess(text)
    {
      LowerCharFacts(text[i]);
      assert Lower(text)[i] == LowerChar(text[i]);
    }
    forall c | c in Preprocess(text)
      ensures exists i :: 0 <= i < |text| && c == LowerChar(text[i])
    {
      var i :| 0 <= i < |Lower(text)| && Lower(text)[i] == c;
    }
  }

  /** A character outside ASCII with no lower-case mapping is never removed. */
  lemma NonAsciiMarkKept(c: char, text: string)
    requires c as int >= 128 && LowerChar(c) == c
    ensures Preprocess([c] + text) == [c] + Preprocess(text)
  {
    PreprocessConcat([c], text);
    PunctuationIsAsciiRanges(c);
    PreprocessChar(c);
  }

  /** The Spanish opening marks survive preprocessing. */
  lemma SpanishMarksKept(text: string)
    ensures Preprocess("¿" + text) == "¿" + Preprocess(text)
    ensures Preprocess("¡" + text) == "¡" + Preprocess(text)
  {
    NonAsciiMarkKept('¿', text);
    NonAsciiMarkKept('¡', text);
  }

  /** Applying `preprocess_text` twice gives the same result as applying it once. */
  lemma PreprocessIdempotent(text: string)
    ensures Preprocess(Preprocess(text)) == Preprocess(text)
  {
    var p := Preprocess(text);
    PreprocessMembers(text);
    forall i | 0 <= i < |p| ensures LowerChar(p[i]) == p[i] {
      assert p[i] in p;
      var j :| 0 <= j < |text| && p[i] == LowerChar(text[j]);
      LowerCharFacts(text[j]);
    }
    LowerFixesLowered(p);
    forall i | 0 <= i < |p| ensures !IsPunctuation(p[i]) {
      assert p[i] in p;
    }
    StripPunctuationKeepsClean(p);
  }

  /** A text made only of lower-case forms is its own lower-case form. */
  lemma LowerFixesLowered(p: string)
    requires forall i :: 0 <= i < |p| ==> LowerChar(p[i]) == p[i]
    ensures Lower(p) == p
  {
  }
}
