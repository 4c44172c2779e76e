/** `detectLanguage` of the voice translator: nine character-class patterns,
    each counted with `text.match(pattern)`, and the language with the highest
    count wins, the first one in declaration order on a tie; English when no
    class occurs.

    None of the nine patterns has the `g` flag, so `match` returns the first
    match only and every count is 0 or 1. The winner is therefore the first
    language, in declaration order, whose class occurs in the text. */
module LanguageDetection {

  /** The nine character classes, in the order the scores are declared. */
  datatype CharClass =
    | ArabicLetters | AsciiLetters | HanIdeographs | Kana | HangulSyllables
    | FrenchLetters | GermanLetters | SpanishLetters | ItalianLetters

  predicate InRange(c: char, lo: int, hi: int) {
    lo <= c as int <= hi
  }

  /** The accented classes carry the `i` flag. Every letter in them is
      listed in both cases, and ASCII case folding does not reach them
      (upper-casing `ß` gives two characters, so it folds to itself). */
  predicate InClass(c: char, k: CharClass) {
    match k
    case ArabicLetters =>
      InRange(c, 0x0600, 0x06FF) || InRange(c, 0x0750, 0x077F) || InRange(c, 0x08A0, 0x08FF)
      || InRange(c, 0xFB50, 0xFDFF) || InRange(c, 0xFE70, 0xFEFF)
    case AsciiLetters => 'a' <= c <= 'z' || 'A' <= c <= 'Z'
    case HanIdeographs => InRange(c, 0x4E00, 0x9FFF)
    case Kana => InRange(c, 0x3040, 0x309F) || InRange(c, 0x30A0, 0x30FF)
    case HangulSyllables => InRange(c, 0xAC00, 0xD7AF)
    case FrenchLetters => c in {'à', 'â', 'ä', 'é', 'è', 'ê', 'ë', 'ï', 'î', 'ô', 'ö', 'ù', 'û', 'ü', 'ÿ', 'ç', 'À', 'Â', 'Ä', 'É', 'È', 'Ê', 'Ë', 'Ï', 'Î', 'Ô', 'Ö', 'Ù', 'Û', 'Ü', 'Ÿ', 'Ç'}
    case GermanLetters => c in {'ä', 'ö', 'ü', 'ß', 'Ä', 'Ö', 'Ü'}
    case SpanishLetters => c in {'ñ', 'á', 'é', 'í', 'ó', 'ú', 'ü', 'Ñ', 'Á', 'É', 'Í', 'Ó', 'Ú', 'Ü'}
    case ItalianLetters => c in {'à', 'è', 'é', 'ì', 'í', 'î', 'ò', 'ó', 'ù', 'À', 'È', 'É', 'Ì', 'Í', 'Î', 'Ò', 'Ó', 'Ù'}
  }

  /** Some character of the text belongs to the class. */
  predicate Mentions(text: string, k: CharClass) {
    exists i | 0 <= i < |text| :: InClass(text[i], k)
  }

  /** `(text.match(pattern) || []).length`. */
  function Score(text: string, k: CharClass): nat {
    if Mentions(text, k) then 1 else 0
  }

  /** The `scores` object, in its key order. */
  const ScoreOrder: seq<(string, CharClass)> := [
    ("ar", ArabicLetters), ("en", AsciiLetters), ("zh", HanIdeographs), ("ja", Kana),
    ("ko", HangulSyllables), ("fr", FrenchLetters), ("de", GermanLetters),
    ("es", SpanishLetters), ("it", ItalianLetters)
  ]

  const DetectableCodes: set<string> := {"ar", "en", "zh", "ja", "ko", "fr", "de", "es", "it"}

  predicate AnyMentioned(text: string, order: seq<(string, CharClass)>) {
    exists j | 0 <= j < |order| :: Mentions(text, order[j].1)
  }

  /** The reference definition: the code of the first class in `order` that
      occurs in the text, English when none does. */
  function FirstMentioned(text: string, order: seq<(string, CharClass)>): string {
    if order == [] then "en"
    else if Mentions(text, order[0].1) then order[0].0
    else FirstMentioned(text, order[1..])
  }

  function Detected(text: string): string {
    FirstMentioned(text, ScoreOrder)
  }

  /** Adding one class at the end changes the first mention only when none of
      the earlier classes occurs. */
  lemma {:induction false} FirstMentionedSnoc(text: string, order: seq<(string, CharClass)>, e: (string, CharClass))
    ensures AnyMentioned(text, order + [e]) <==> AnyMentioned(text, order) || Mentions(text, e.1)
    ensures AnyMentioned(text, order) ==> FirstMentioned(text, order + [e]) == FirstMentioned(text, order)
    ensures !AnyMentioned(text, order) ==>
      FirstMentioned(text, order + [e]) == (if Mentions(text, e.1) then e.0 else "en")
  {
    var ext := order + [e];
    assert ext[|order|] == e;
    assert forall j :: 0 <= j < |order| ==> ext[j] == order[j];
    if order != [] {
      assert ext[0] == order[0];
      assert ext[1..] == order[1..] + [e];
      FirstMentionedSnoc(text, order[1..], e);
      assert AnyMentioned(text, order) <==> Mentions(text, order[0].1) || AnyMentioned(text, order[1..]) by {
        if AnyMentioned(text, order) && !Mentions(text, order[0].1) {
          var j :| 0 <= j < |order| && Mentions(text, order[j].1);
          assert order[1..][j - 1] == order[j];
        }
        if AnyMentioned(text, order[1..]) {
          var j :| 0 <= j < |order[1..]| && Mentions(text, order[1..][j].1);
          assert order[j + 1] == order[1..][j];
        }
      }
    }
  }

  /** The detection loop, with the strict `>` of the source: a later class with
      the same count does not replace an earlier one. */
  method DetectLanguage(text: string) returns (lang: string)
    ensures lang == Detected(text)
    ensures lang in DetectableCodes
  {
    lang := "en";
    var maxScore := 0;
    var i := 0;
    while i < |ScoreOrder|
      invariant 0 <= i <= |ScoreOrder|
      invariant maxScore == (if AnyMentioned(text, ScoreOrder[..i]) then 1 else 0)
      invariant lang == FirstMentioned(text, ScoreOrder[..i])
      invariant maxScore == 0 ==> lang == "en"
      invariant lang in DetectableCodes
    {
      var entry := ScoreOrder[i];
      var score := Score(text, entry.1);
      FirstMentionedSnoc(text, ScoreOrder[..i], entry);
      assert ScoreOrder[..i + 1] == ScoreOrder[..i] + [entry];
      if score > maxScore {
        maxScore := score;
        lang := entry.0;
      }
      i := i + 1;
    }
    assert ScoreOrder[..i] == ScoreOrder;
    if maxScore == 0 {
      lang := "en";
    }
  }

  // ---------------------------------------------------------------------
  // What the detector decides

  lemma FirstMentionedCons(text: string, e: (string, CharClass), rest: seq<(string, CharClass)>)
    ensures FirstMentioned(text, [e] + rest) == if Mentions(text, e.1) then e.0 else FirstMentioned(text, rest)
  {
    assert ([e] + rest)[0] == e;
    assert ([e] + rest)[1..] == rest;
  }

  /** The detector written out as the chain of tests it amounts to. */
  lemma DetectedUnfold(text: string)
    ensures Detected(text) ==
      if Mentions(text, ArabicLetters) then "ar"
      else if Mentions(text, AsciiLetters) then "en"
      else if Mentions(text, HanIdeographs) then "zh"
      else if Mentions(text, Kana) then "ja"
      else if Mentions(text, HangulSyllables) then "ko"
      else if Mentions(text, FrenchLetters) then "fr"
      else if Mentions(text, GermanLetters) then "de"
      else if Mentions(text, SpanishLetters) then "es"
      else if Mentions(text, ItalianLetters) then "it"
      else "en"
  {
    var r8: seq<(string, CharClass)> := [("it", ItalianLetters)];
    var r7 := [("es", SpanishLetters)] + r8;
    var r6 := [("de", GermanLetters)] + r7;
    var r5 := [("fr", FrenchLetters)] + r6;
    var r4 := [("ko", HangulSyllables)] + r5;
    var r3 := [("ja", Kana)] + r4;
    var r2 := [("zh", HanIdeographs)] + r3;
    var r1 := [("en", AsciiLetters)] + r2;
    assert ScoreOrder == [("ar", ArabicLetters)] + r1;
    FirstMentionedCons(text, ("ar", ArabicLetters), r1);
    FirstMentionedCons(text, ("en", AsciiLetters), r2);
    FirstMentionedCons(text, ("zh", HanIdeographs), r3);
    FirstMentionedCons(text, ("ja", Kana), r4);
    FirstMentionedCons(text, ("ko", HangulSyllables), r5);
    FirstMentionedCons(text, ("fr", FrenchLetters), r6);
    FirstMentionedCons(text, ("de", GermanLetters), r7);
    FirstMentionedCons(text, ("es", SpanishLetters), r8);
    FirstMentionedCons(text, ("it", ItalianLetters), []);
    assert r8 == [("it", ItalianLetters)] + [];
  }

  /** Any Arabic character makes the text Arabic, whatever else it holds. */
  lemma ArabicWins(text: string)
    ensures Detected(text) == "ar" <==> Mentions(text, ArabicLetters)
  {
    DetectedUnfold(text);
  }

  /** English is chosen exactly when the text has an ASCII letter but no Arabic,
      or has no character of any class. */
  lemma EnglishCases(text: string)
    ensures Detected(text) == "en" <==>
      (!Mentions(text, ArabicLetters) && Mentions(text, AsciiLetters))
      || (forall k: CharClass :: !Mentions(text, k))
  {
    DetectedUnfold(text);
    if Detected(text) == "en" && !Mentions(text, AsciiLetters) {
      forall k: CharClass ensures !Mentions(text, k) {
        match k
        case ArabicLetters =>
        case AsciiLetters =>
        case HanIdeographs =>
        case Kana =>
        case HangulSyllables =>
        case FrenchLetters =>
        case GermanLetters =>
        case SpanishLetters =>
        case ItalianLetters =>
      }
    }
  }

  /** Accented letters decide only in text without any ASCII letter, so French,
      German, Spanish or Italian words that contain one plain letter are
      detected as English. */
  lemma AccentedNeedNoAsciiLetter(text: string)
    requires Detected(text) in {"fr", "de", "es", "it"}
    ensures !Mentions(text, AsciiLetters) && !Mentions(text, ArabicLetters)
    ensures !Mentions(text, HanIdeographs) && !Mentions(text, Kana) && !Mentions(text, HangulSyllables)
  {
    DetectedUnfold(text);
  }

  /** A detected language other than the default is one whose class occurs. */
  lemma DetectedClassOccurs(text: string, code: string, k: CharClass)
    requires (code, k) in ScoreOrder && Detected(text) == code && code != "en"
    ensures Mentions(text, k)
  {
    DetectedUnfold(text);
  }

  /** A text of one character is detected by the classes of that character. */
  lemma SingleChar(c: char)
    ensures Detected([c]) ==
      if InClass(c, ArabicLetters) then "ar"
      else if InClass(c, AsciiLetters) then "en"
      else if InClass(c, HanIdeographs) then "zh"
      else if InClass(c, Kana) then "ja"
      else if InClass(c, HangulSyllables) then "ko"
      else if InClass(c, FrenchLetters) then "fr"
      else if InClass(c, GermanLetters) then "de"
      else if InClass(c, SpanishLetters) then "es"
      else if InClass(c, ItalianLetters) then "it"
      else "en"
  {
    assert [c][0] == c;
    assert forall k: CharClass :: Mentions([c], k) <==> InClass(c, k);
    DetectedUnfold([c]);
  }

  /** German has no letter of its own except `ß`: the umlauts are French letters
      too, and French comes first. */
  lemma UmlautsAreFrench()
    ensures Detected("ü") == "fr" && Detected("ä") == "fr" && Detected("Ö") == "fr"
    ensures Detected("ß") == "de"
  {
    assert Detected("ü") == "fr" by { SingleChar('ü'); }
    assert Detected("ä") == "fr" by { SingleChar('ä'); }
    assert Detected("Ö") == "fr" by { SingleChar('Ö'); }
    assert Detected("ß") == "de" by { SingleChar('ß'); }
  }

  /** One letter of each detectable language. */
  function Sample(code: string): char {
    if code == "ar" then 'م' else if code == "en" then 'a' else if code == "zh" then '中'
    else if code == "ja" then 'あ' else if code == "ko" then '한' else if code == "fr" then 'ç'
    else if code == "de" then 'ß' else if code == "es" then 'ñ' else 'ì'
  }

  /** Each of the nine codes is the answer for some one-character text. */
  lemma EveryCodeDetectable(code: string)
    requires code in DetectableCodes
    ensures Detected([Sample(code)]) == code
  {
    SingleChar(Sample(code));
  }
}
