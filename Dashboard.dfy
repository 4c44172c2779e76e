/** The dashboard page: the language pair, the text input and output, the list
    of saved translations (newest first, at most fifty kept), and the user's
    statistics derived from it. Ids, timestamps and the confirmation answer
    are parameters; storage writes and rendering are not modelled. */
module Dashboard {
  import opened Wrappers
  import opened JsStrings
  import opened Languages

  /** One saved translation. */
  datatype SavedTranslation = SavedTranslation(
    id: int, original: string, translated: string,
    fromLang: string, toLang: string, timestamp: string, date: string)

  datatype UserStats = UserStats(totalTranslations: nat, savedPhrases: nat, languagesUsed: nat)

  const MaxSaved: nat := 50
  const InitialStats := UserStats(0, 0, 0)

  // ---------------------------------------------------------------------
  // The saved list

  function Min(a: int, b: int): int {
    if a <= b then a else b
  }

  /** `unshift` followed by `slice(0, 50)` when the list grew past fifty. */
  function PushRecent(list: seq<SavedTranslation>, e: SavedTranslation): (r: seq<SavedTranslation>)
    ensures |r| == Min(|list| + 1, MaxSaved) && r[0] == e
    ensures r[1..] == list[..Min(|list|, MaxSaved - 1)]
  {
    var grown := [e] + list;
    if |grown| > MaxSaved then grown[..MaxSaved] else grown
  }

  /** `filter(t => t.id !== id)`. */
  function WithoutId(list: seq<SavedTranslation>, id: int): (r: seq<SavedTranslation>)
    ensures |r| <= |list|
  {
    if list == [] then []
    else (if list[0].id == id then [] else [list[0]]) + WithoutId(list[1..], id)
  }

  /** The kept entries are exactly the entries with another id. */
  lemma {:induction false} WithoutIdMembers(list: seq<SavedTranslation>, id: int)
    ensures forall t :: t in WithoutId(list, id) <==> t in list && t.id != id
    decreases |list|
  {
    if list != [] {
      WithoutIdMembers(list[1..], id);
      assert list == [list[0]] + list[1..];
    }
  }

  /** Filtering a list that starts with `x`: `x` is kept unless it has the id. */
  lemma WithoutIdCons(x: SavedTranslation, rest: seq<SavedTranslation>, id: int)
    ensures WithoutId([x] + rest, id) == (if x.id == id then [] else [x]) + WithoutId(rest, id)
  {
    assert ([x] + rest)[0] == x;
    assert ([x] + rest)[1..] == rest;
  }

  /** Filtering works piece by piece, so the kept entries stay in their order. */
  lemma {:induction false} WithoutIdDistributes(a: seq<SavedTranslation>, b: seq<SavedTranslation>, id: int)
    ensures WithoutId(a + b, id) == WithoutId(a, id) + WithoutId(b, id)
    decreases |a|
  {
    if a == [] {
      assert a + b == b;
    } else {
      var x, rest := a[0], a[1..];
      var head := if x.id == id then [] else [x];
      assert a == [x] + rest;
      assert a + b == [x] + (rest + b);
      WithoutIdCons(x, rest + b, id);
      WithoutIdCons(x, rest, id);
      WithoutIdDistributes(rest, b, id);
      assert head + (WithoutId(rest, id) + WithoutId(b, id)) == (head + WithoutId(rest, id)) + WithoutId(b, id);
    }
  }

  /** A list without the id is left as it is. */
  lemma {:induction false} WithoutAbsentId(list: seq<SavedTranslation>, id: int)
    requires forall k :: 0 <= k < |list| ==> list[k].id != id
    ensures WithoutId(list, id) == list
    decreases |list|
  {
    if list != [] {
      var rest := list[1..];
      assert forall k :: 0 <= k < |rest| ==> rest[k] == list[k + 1];
      WithoutAbsentId(rest, id);
      assert WithoutId(list, id) == [list[0]] + WithoutId(rest, id);
      assert list == [list[0]] + rest;
    }
  }

  /** Deleting twice is deleting once. */
  lemma WithoutIdIdempotent(list: seq<SavedTranslation>, id: int)
    ensures WithoutId(WithoutId(list, id), id) == WithoutId(list, id)
  {
    var r := WithoutId(list, id);
    WithoutIdMembers(list, id);
    assert forall k :: 0 <= k < |r| ==> r[k] in r;
    WithoutAbsentId(r, id);
  }

  /** The codes a list mentions as source or target. */
  function LanguagesOf(list: seq<SavedTranslation>): (r: set<string>)
    ensures forall c :: c in r <==> exists t :: t in list && (t.fromLang == c || t.toLang == c)
  {
    if list == [] then {}
    else
      var last := list[|list| - 1];
      var init := list[..|list| - 1];
      assert forall t :: t in list <==> t in init || t == last;
      LanguagesOf(init) + {last.fromLang, last.toLang}
  }

  /** Each entry adds at most two codes. */
  lemma {:induction false} LanguagesBound(list: seq<SavedTranslation>)
    ensures |LanguagesOf(list)| <= 2 * |list|
  {
    if list != [] {
      var last := list[|list| - 1];
      var init := list[..|list| - 1];
      LanguagesBound(init);
      assert LanguagesOf(list) == LanguagesOf(init) + {last.fromLang, last.toLang};
      assert |{last.fromLang, last.toLang}| <= 2;
    }
  }

  /** The statistics `updateUserStats` derives from the list; the translation
      counter is kept. */
  function StatsFor(stats: UserStats, list: seq<SavedTranslation>): (r: UserStats)
    ensures r.totalTranslations == stats.totalTranslations && r.savedPhrases == |list|
    ensures r.languagesUsed <= 2 * r.savedPhrases
  {
    LanguagesBound(list);
    UserStats(stats.totalTranslations, |list|, |LanguagesOf(list)|)
  }

  // ---------------------------------------------------------------------
  // Translation, counter and button

  /** The phrase tables of `simulateTranslation`, keyed by `from-to`. */
  const SimulatedPhrases: map<string, map<string, string>> := map[
    "ar-en" := map["مرحبا" := "Hello", "كيف حالك" := "How are you", "شكرا" := "Thank you",
                   "مع السلامة" := "Goodbye"],
    "en-ar" := map["Hello" := "مرحبا", "How are you" := "كيف حالك", "Thank you" := "شكرا",
                   "Goodbye" := "مع السلامة"]
  ]

  function PairKey(fromLang: string, toLang: string): string {
    fromLang + "-" + toLang
  }

  /** The table entry when the pair has a table holding the exact text. */
  function SimulatedHit(text: string, fromLang: string, toLang: string): Option<string> {
    var key := PairKey(fromLang, toLang);
    if key in SimulatedPhrases && text in SimulatedPhrases[key] && SimulatedPhrases[key][text] != []
    then Some(SimulatedPhrases[key][text])
    else None
  }

  /** The tag put in front of an untranslated text. */
  function FallbackTag(fromLang: string, toLang: string): string {
    if fromLang == "ar" && toLang == "en" then "[Translated to English]: "
    else if fromLang == "en" && toLang == "ar" then "[مترجم إلى العربية]: "
    else "[Translated from " + fromLang + " to " + toLang + "]: "
  }

  /** `simulateTranslation`: the table entry, else the text behind a tag. */
  function SimulateTranslation(text: string, fromLang: string, toLang: string): (r: string)
    ensures SimulatedHit(text, fromLang, toLang).Some? ==> r == SimulatedHit(text, fromLang, toLang).value
    ensures SimulatedHit(text, fromLang, toLang).None? ==>
      |r| > |text| && r[|r| - |text|..] == text && r[0] == '[' && r[..|r| - |text|] == FallbackTag(fromLang, toLang)
  {
    match SimulatedHit(text, fromLang, toLang)
    case Some(v) => v
    case None =>
      var r := FallbackTag(fromLang, toLang) + text;
      assert r[|r| - |text|..] == text;
      r
  }

  /** Only the pairs Arabic→English and English→Arabic have a table: the key
      `from-to` names exactly one pair. */
  lemma PairKeyNamesOnePair(fromLang: string, toLang: string)
    ensures PairKey(fromLang, toLang) in SimulatedPhrases <==>
      (fromLang == "ar" && toLang == "en") || (fromLang == "en" && toLang == "ar")
  {
    var key := PairKey(fromLang, toLang);
    if key == "ar-en" || key == "en-ar" {
      assert key[|fromLang|] == '-';
      assert |fromLang| == 2;
      assert fromLang == key[..2] && toLang == key[3..];
    }
  }

  /** The table pairs are inverse: translating a phrase there and back returns it. */
  lemma SimulatedRoundTrip(text: string)
    requires SimulatedHit(text, "ar", "en").Some?
    ensures SimulateTranslation(SimulateTranslation(text, "ar", "en"), "en", "ar") == text
  {
    assert PairKey("ar", "en") == "ar-en";
    assert PairKey("en", "ar") == "en-ar";
  }

  datatype CounterColour = Normal | Warning | Danger

  /** `updateCharacterCount`: `5000 * 0.9` and `5000 * 0.7` are exactly 4500 and
      3500 in double precision, and the count is a whole number. */
  function CounterColourOf(count: nat): CounterColour {
    if count > 4500 then Danger
    else if count > 3500 then Warning
    else Normal
  }

  function Severity(c: CounterColour): nat {
    match c
    case Normal => 0
    case Warning => 1
    case Danger => 2
  }

  /** A longer text never shows a milder colour. */
  lemma CounterMonotone(a: nat, b: nat)
    requires a <= b
    ensures Severity(CounterColourOf(a)) <= Severity(CounterColourOf(b))
  {
  }

  /** The colour of the text box's content, counted in UTF-16 code units. */
  function CounterColourFor(value: string): CounterColour {
    CounterColourOf(JsLength(value))
  }

  /** A text of at most 1750 characters is always shown in the normal colour,
      and one of more than 4500 in the danger colour. */
  lemma CounterColourForText(value: string)
    ensures 2 * |value| <= 3500 ==> CounterColourFor(value) == Normal
    ensures |value| > 4500 ==> CounterColourFor(value) == Danger
  {
    JsLengthBounds(value);
  }

  /** `toggleTranslateButton`. */
  function TranslateButtonDisabled(value: string): (r: bool)
    ensures r <==> forall k :: 0 <= k < |value| ==> IsWhitespace(value[k])
  {
    TrimBlank(value);
    Trim(value) == []
  }

  // ---------------------------------------------------------------------
  // The swap of the text boxes

  /** The texts after `swapLanguages`: exchanged when the output is not blank. */
  function ExchangedTexts(input: string, output: string): (r: (string, string))
    ensures Trim(output) != [] ==> r == (output, input)
    ensures Trim(output) == [] ==> r == (input, output)
  {
    if Trim(output) != [] then (output, input) else (input, output)
  }

  /** A text with a character that is not whitespace is not blank. */
  lemma NotBlankAt(s: string, k: nat)
    requires k < |s| && !IsWhitespace(s[k])
    ensures Trim(s) != []
  {
    TrimBlank(s);
  }

  /** The text of the placeholder markup `clearInput` writes into the output
      box: its icon and its sentence, inside the template's line breaks and
      indentation. */
  const PlaceholderIcon := "\U{1F310}"
  const PlaceholderSentence := "الترجمة ستظهر هنا"
  const ClearedOutput := "\n            \n                " + PlaceholderIcon + "\n                "
                         + PlaceholderSentence + "\n            \n        "

  /** The cleared output box is not blank, so a swap right after `clearInput`
      moves the placeholder's text into the input box. */
  lemma ClearedOutputMovesOnSwap()
    ensures Trim(ClearedOutput) != []
    ensures ExchangedTexts([], ClearedOutput) == (ClearedOutput, [])
  {
    var lead := "\n            \n                ";
    var rest := "\n                " + PlaceholderSentence + "\n            \n        ";
    assert ClearedOutput == lead + PlaceholderIcon + rest;
    NotBlankAt(lead + PlaceholderIcon + rest, |lead|);
  }

  /** Swapping twice restores the texts unless the first swap moved a blank
      input into the output, which stops the second one. */
  lemma ExchangeTwice(input: string, output: string)
    ensures var once := ExchangedTexts(input, output);
      ExchangedTexts(once.0, once.1) == (input, output) <==> Trim(output) == [] || Trim(input) != []
  {
  }

  // ---------------------------------------------------------------------
  // The page

  class DashboardPage {
    var languages: LanguagePair
    var saved: seq<SavedTranslation>
    var stats: UserStats
    var inputText: string
    var outputText: string
    /** Translations scheduled by `performTranslation` whose timer has not fired. */
    var pending: nat

    /** The statistics agree with the list, as `updateUserStats` leaves them. */
    predicate Valid()
      reads this
    {
      stats == StatsFor(stats, saved)
    }

    /** Page load: the stored list and user, then `updateUserStats`. The two
        text boxes start with whatever the page's markup puts in them, which
        need not be blank. */
    constructor (stored: seq<SavedTranslation>, storedStats: Option<UserStats>,
                 initialInput: string, initialOutput: string)
      ensures Valid()
      ensures languages == InitialPair && saved == stored
      ensures stats == StatsFor(if storedStats.Some? then storedStats.value else InitialStats, stored)
      ensures inputText == initialInput && outputText == initialOutput && pending == 0
    {
      languages := InitialPair;
      saved := stored;
      stats := if storedStats.Some? then storedStats.value else InitialStats;
      inputText := initialInput;
      outputText := initialOutput;
      pending := 0;
      new;
      UpdateUserStats();
    }

    /** `updateUserStats`: the list length, and the distinct codes collected in
        a set by the `forEach`. */
    method UpdateUserStats()
      modifies this
      ensures stats == StatsFor(old(stats), saved) && Valid()
      ensures languages == old(languages) && saved == old(saved)
      ensures inputText == old(inputText) && outputText == old(outputText) && pending == old(pending)
    {
      var usedLanguages: set<string> := {};
      var i := 0;
      while i < |saved|
        invariant 0 <= i <= |saved|
        invariant usedLanguages == LanguagesOf(saved[..i])
      {
        assert saved[..i + 1][..i] == saved[..i];
        usedLanguages := usedLanguages + {saved[i].fromLang, saved[i].toLang};
        i := i + 1;
      }
      assert saved[..i] == saved;
      LanguagesBound(saved);
      stats := UserStats(stats.totalTranslations, |saved|, |usedLanguages|);
    }

    /** `swapLanguages`. */
    method SwapLanguages()
      modifies this
      ensures languages == Swapped(old(languages))
      ensures (inputText, outputText) == ExchangedTexts(old(inputText), old(outputText))
      ensures saved == old(saved) && stats == old(stats) && pending == old(pending)
    {
      languages := Swapped(languages);
      if Trim(outputText) != [] {
        inputText, outputText := outputText, inputText;
      }
    }

    /** `clearInput`: the input box is emptied and the output box gets the
        placeholder markup. */
    method ClearInput()
      modifies this
      ensures inputText == [] && outputText == ClearedOutput
      ensures languages == old(languages) && saved == old(saved) && stats == old(stats) && pending == old(pending)
    {
      inputText := [];
      outputText := ClearedOutput;
    }

    /** `saveTranslation`, with the id, timestamp and date it would read from
        the clock. */
    method SaveTranslation(id: int, timestamp: string, date: string) returns (didSave: bool)
      requires Valid()
      modifies this
      ensures Valid()
      ensures didSave <==> Trim(old(inputText)) != [] && Trim(old(outputText)) != []
      ensures didSave ==> saved == PushRecent(old(saved), SavedTranslation(
        id, Trim(old(inputText)), Trim(old(outputText)), old(languages).from, old(languages).to, timestamp, date))
      ensures !didSave ==> saved == old(saved) && stats == old(stats)
      ensures stats.totalTranslations == old(stats).totalTranslations
      ensures languages == old(languages) && inputText == old(inputText) && outputText == old(outputText)
      ensures pending == old(pending)
    {
      var original := Trim(inputText);
      var translated := Trim(outputText);
      if original == [] || translated == [] {
        return false;
      }
      var entry := SavedTranslation(id, original, translated, languages.from, languages.to, timestamp, date);
      saved := PushRecent(saved, entry);
      UpdateUserStats();
      didSave := true;
    }

    /** `deleteSavedTranslation`, with the answer to the confirmation. */
    method DeleteSavedTranslation(id: int, confirmed: bool)
      requires Valid()
      modifies this
      ensures Valid()
      ensures confirmed ==> saved == WithoutId(old(saved), id)
      ensures !confirmed ==> saved == old(saved) && stats == old(stats)
      ensures stats.totalTranslations == old(stats).totalTranslations
      ensures languages == old(languages) && inputText == old(inputText) && outputText == old(outputText)
      ensures pending == old(pending)
    {
      if confirmed {
        saved := WithoutId(saved, id);
        UpdateUserStats();
      }
    }

    /** `performTranslation`: a blank input is refused; otherwise a
        translation is scheduled. Nothing is counted yet. */
    method PerformTranslation() returns (scheduled: bool)
      modifies this
      ensures scheduled <==> Trim(old(inputText)) != []
      ensures pending == old(pending) + (if scheduled then 1 else 0)
      ensures stats == old(stats) && saved == old(saved) && languages == old(languages)
      ensures inputText == old(inputText) && outputText == old(outputText)
    {
      if Trim(inputText) == [] {
        return false;
      }
      pending := pending + 1;
      scheduled := true;
    }

    /** The timer callback of `performTranslation`: it translates the input as
        it is when the timer fires, untrimmed, and counts one translation. */
    method CompleteTranslation()
      requires Valid() && pending > 0
      modifies this
      ensures Valid()
      ensures outputText == SimulateTranslation(old(inputText), old(languages).from, old(languages).to)
      ensures stats.totalTranslations == old(stats).totalTranslations + 1
      ensures stats.savedPhrases == old(stats).savedPhrases && stats.languagesUsed == old(stats).languagesUsed
      ensures pending == old(pending) - 1
      ensures saved == old(saved) && languages == old(languages) && inputText == old(inputText)
    {
      outputText := SimulateTranslation(inputText, languages.from, languages.to);
      stats := stats.(totalTranslations := stats.totalTranslations + 1);
      pending := pending - 1;
      UpdateUserStats();
    }
  }
}
