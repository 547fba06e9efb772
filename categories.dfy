/** The five part-of-speech categories, their style keys, and the mapping from
    the tagger's Penn-Treebank-style codes onto them (mapPOSCode). */
module Categories {

  datatype Option<T> = None | Some(value: T)

  datatype Category = Noun | Verb | Adjective | Adverb | Punctuation

  /** The keys of the style table, in the table's own order; this is also the
      order in which removeStyles walks them. */
  const AllCategories: seq<Category> := [Noun, Verb, Adjective, Adverb, Punctuation]

  /** The inline-style name under which a category is stored on a character. */
  function Key(c: Category): string
  {
    match c
    case Noun => "NOUN"
    case Verb => "VERB"
    case Adjective => "ADJECTIVE"
    case Adverb => "ADVERB"
    case Punctuation => "PUNCTUATION"
  }

  /** Looking a style name up in the style table: it names a category exactly
      when it is that category's key. */
  function ParseCategory(s: string): (r: Option<Category>)
    ensures forall c :: r == Some(c) <==> s == Key(c)
  {
    if s == "NOUN" then Some(Noun)
    else if s == "VERB" then Some(Verb)
    else if s == "ADJECTIVE" then Some(Adjective)
    else if s == "ADVERB" then Some(Adverb)
    else if s == "PUNCTUATION" then Some(Punctuation)
    else None
  }

  predicate IsCategoryKey(s: string)
  {
    ParseCategory(s).Some?
  }

  lemma KeyInjective(c: Category, d: Category)
    ensures Key(c) == Key(d) <==> c == d
  {
  }

  lemma AllCategoriesComplete(c: Category)
    ensures c in AllCategories
  {
  }

  /** The em-dash as it reaches the tagger after being mis-decoded: the three
      characters U+00E2, U+20AC, U+201D. */
  const Dash: string := "\U{E2}\U{20AC}\U{201D}"

  /** mapPOSCode: the word is consulted only for the dash special case; every
      other decision is made on the tag code alone (MapPOSCodeIsTable). */
  function MapPOSCode(code: string, word: string): (r: Option<Category>)
    ensures word == Dash ==> r == Some(Punctuation)
  {
    if word == Dash then Some(Punctuation)
    else match code
      case "." => Some(Punctuation)
      case "," => Some(Punctuation)
      case "(" => Some(Punctuation)
      case ")" => Some(Punctuation)
      case "JJ" => Some(Adjective)
      case "JJR" => Some(Adjective)
      case "JJS" => Some(Adjective)
      case "VB" => Some(Verb)
      case "VBD" => Some(Verb)
      case "VBG" => Some(Verb)
      case "VBN" => Some(Verb)
      case "VBP" => Some(Verb)
      case "VBZ" => Some(Verb)
      case "VBT" => Some(Verb)
      case "RB" => Some(Adverb)
      case "RBR" => Some(Adverb)
      case "RBS" => Some(Adverb)
      case "WRB" => Some(Adverb)
      case "NN" => Some(Noun)
      case "NNS" => Some(Noun)
      case "NNP" => Some(Noun)
      case "NNPS" => Some(Noun)
      case "PRP" => Some(Noun)
      case "WP" => Some(Noun)
      case _ => None
  }

  /** The tag table written as a list of (code, category) rows, grouped by
      category: a reference definition independent of the switch above. */
  const CodeTable: seq<(string, Category)> :=
    [(".", Punctuation), (",", Punctuation), ("(", Punctuation), (")", Punctuation)] +
    [("JJ", Adjective), ("JJR", Adjective), ("JJS", Adjective)] +
    [("VB", Verb), ("VBD", Verb), ("VBG", Verb), ("VBN", Verb), ("VBP", Verb), ("VBZ", Verb), ("VBT", Verb)] +
    [("RB", Adverb), ("RBR", Adverb), ("RBS", Adverb), ("WRB", Adverb)] +
    [("NN", Noun), ("NNS", Noun), ("NNP", Noun), ("NNPS", Noun), ("PRP", Noun), ("WP", Noun)]

  /** For any word but the dash, a code maps to a category exactly when
      (code, category) is a row of the table, and a code outside the table
      maps to nothing. */
  lemma MapPOSCodeIsTable(code: string, word: string)
    requires word != Dash
    ensures forall c :: MapPOSCode(code, word) == Some(c) <==> (code, c) in CodeTable
  {
  }

  /** Codes the table maps, by category. */
  lemma MapPOSCodeByFamily(code: string, word: string)
    requires word != Dash
    ensures MapPOSCode(code, word) == Some(Punctuation) <==> code in {".", ",", "(", ")"}
    ensures MapPOSCode(code, word) == Some(Adjective) <==> code in {"JJ", "JJR", "JJS"}
    ensures MapPOSCode(code, word) == Some(Verb) <==> code in {"VB", "VBD", "VBG", "VBN", "VBP", "VBZ", "VBT"}
    ensures MapPOSCode(code, word) == Some(Adverb) <==> code in {"RB", "RBR", "RBS", "WRB"}
    ensures MapPOSCode(code, word) == Some(Noun) <==> code in {"NN", "NNS", "NNP", "NNPS", "PRP", "WP"}
  {
  }

  /** Codes that the tagger emits but the table leaves out map to nothing. */
  lemma UnlistedCodesUnmapped(code: string, word: string)
    requires word != Dash
    requires code in {"DT", "CC", "IN", "MD", "PRP$", "WP$", "TO", "EX", "POS", "SYM"}
    ensures MapPOSCode(code, word) == None
  {
  }
}
