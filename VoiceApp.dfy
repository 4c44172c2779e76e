/** The state of the voice translator page (`VoiceTranslateApp`): the selected
    languages, the source text box, the translation shown, and the favourite
    phrases, with the handlers that change them. Page elements are fields;
    the remote translation reply and the recognition event are parameters. */
module VoiceApp {
  import opened Wrappers
  import opened JsStrings
  import Transcript
  import LanguageDetection
  import PhraseDictionary

  /** The text shown before any translation. */
  const Placeholder := "الترجمة ستظهر هنا..."
  /** The text shown while a translation is under way. */
  const Translating := "جاري الترجمة..."

  const DefaultFavorites: seq<string> := ["مرحبا، كيف حالك؟", "بكم هذا؟", "أين الفندق؟", "شكراً لك"]

  /** What `localStorage.getItem('voiceTranslateFavorites')` holds: nothing,
      text that is not JSON, or a parsed list of phrases. */
  datatype StoredFavorites = NothingStored | Unparsable | Parsed(phrases: seq<string>)

  /** `loadFavorites`: the stored list when there is one (an empty list is
      truthy), the default phrases otherwise. */
  function LoadedFavorites(stored: StoredFavorites): (r: seq<string>)
    ensures stored.Parsed? ==> r == stored.phrases
    ensures !stored.Parsed? ==> r == DefaultFavorites && NoDuplicates(r)
  {
    if stored.Parsed? then stored.phrases else DefaultFavorites
  }

  predicate NoDuplicates(s: seq<string>) {
    forall i, j :: 0 <= i < j < |s| ==> s[i] != s[j]
  }

  // ---------------------------------------------------------------------
  // Favourites

  datatype AddOutcome = Added | BlankText | AlreadySaved

  /** The early returns of `addToFavorites`, in their order. */
  function AddOutcomeOf(favorites: seq<string>, value: string): AddOutcome {
    var text := Trim(value);
    if text == [] then BlankText
    else if text in favorites then AlreadySaved
    else Added
  }

  /** The list after `addToFavorites`: the trimmed text appended when accepted. */
  function AfterAdd(favorites: seq<string>, value: string): (r: seq<string>)
    ensures AddOutcomeOf(favorites, value) == Added ==>
      |r| == |favorites| + 1 && r[..|favorites|] == favorites && r[|favorites|] == Trim(value)
    ensures AddOutcomeOf(favorites, value) != Added ==> r == favorites
    ensures NoDuplicates(favorites) ==> NoDuplicates(r)
    ensures forall p :: p in r ==> p in favorites || p == Trim(value)
  {
    if AddOutcomeOf(favorites, value) == Added then
      var r := favorites + [Trim(value)];
      assert r[..|favorites|] == favorites;
      r
    else favorites
  }

  /** Acceptance in terms of the inputs: non-blank and not yet present. */
  lemma AddAcceptsExactly(favorites: seq<string>, value: string)
    ensures AddOutcomeOf(favorites, value) == Added <==> Trim(value) != [] && Trim(value) !in favorites
    ensures AddOutcomeOf(favorites, value) == AlreadySaved ==> AfterAdd(favorites, value) == favorites
  {
  }

  /** The start position of `splice(index, 1)`: a negative index counts from
      the end, and both are clamped to the list. */
  function SpliceStart(len: nat, index: int): (k: nat)
    ensures k <= len
    ensures 0 <= index < len ==> k == index
  {
    if index < 0 then (if len + index < 0 then 0 else len + index)
    else if index > len then len
    else index
  }

  /** `favorites.splice(index, 1)`: removes the element at the start position,
      if there is one, and keeps the others in order. */
  function SpliceOne(s: seq<string>, index: int): (r: seq<string>)
    ensures var k := SpliceStart(|s|, index);
      (k < |s| ==> |r| == |s| - 1 && (forall j :: 0 <= j < k ==> r[j] == s[j])
                   && (forall j :: k <= j < |r| ==> r[j] == s[j + 1]))
      && (k == |s| ==> r == s)
  {
    var k := SpliceStart(|s|, index);
    if k < |s| then s[..k] + s[k + 1..] else s
  }

  /** Removing one phrase keeps a duplicate-free list duplicate-free, and never
      brings in a phrase. */
  lemma SpliceKeepsDistinct(s: seq<string>, index: int)
    ensures var r := SpliceOne(s, index);
      (NoDuplicates(s) ==> NoDuplicates(r)) && forall p :: p in r ==> p in s
  {
    var r := SpliceOne(s, index);
    var k := SpliceStart(|s|, index);
    if k < |s| {
      forall p | p in r ensures p in s {
        var j :| 0 <= j < |r| && r[j] == p;
        if j < k { assert s[j] == p; } else { assert s[j + 1] == p; }
      }
      if NoDuplicates(s) {
        forall i, j | 0 <= i < j < |r| ensures r[i] != r[j] {
          var si := if i < k then i else i + 1;
          var sj := if j < k then j else j + 1;
          assert r[i] == s[si] && r[j] == s[sj] && si < sj;
        }
      }
    }
  }

  /** A translation that `swapLanguages` may move into the source box: neither
      empty nor one of the two placeholder texts. */
  predicate IsRealTranslation(t: string) {
    t != [] && t != Placeholder && t != Translating
  }

  class VoiceTranslateApp {
    var sourceLang: string
    var targetLang: string
    var sourceText: string
    var translatedText: string
    var favorites: seq<string>
    /** The two tables of `mockTranslateAPI`. */
    const translations: seq<PhraseDictionary.Phrase>
    const commonWords: seq<PhraseDictionary.Phrase>

    /** A new page: the selected languages come from the page, the favourites
        from storage. */
    constructor (initialSource: string, initialTarget: string, stored: StoredFavorites)
      ensures sourceLang == initialSource && targetLang == initialTarget
      ensures sourceText == [] && translatedText == Placeholder
      ensures favorites == LoadedFavorites(stored)
      ensures translations == PhraseDictionary.Translations && commonWords == PhraseDictionary.CommonWords
    {
      translations := PhraseDictionary.Translations;
      commonWords := PhraseDictionary.CommonWords;
      sourceLang := initialSource;
      targetLang := initialTarget;
      sourceText := [];
      translatedText := Placeholder;
      favorites := LoadedFavorites(stored);
    }

    /** `addToFavorites`. */
    method AddToFavorites() returns (outcome: AddOutcome)
      modifies this
      ensures outcome == AddOutcomeOf(old(favorites), old(sourceText))
      ensures favorites == AfterAdd(old(favorites), old(sourceText))
      ensures NoDuplicates(old(favorites)) ==> NoDuplicates(favorites)
      ensures sourceLang == old(sourceLang) && targetLang == old(targetLang)
      ensures sourceText == old(sourceText) && translatedText == old(translatedText)
    {
      var text := Trim(sourceText);
      if text == [] {
        return BlankText;
      }
      if text in favorites {
        return AlreadySaved;
      }
      favorites := favorites + [text];
      outcome := Added;
    }

    /** `removeFavorite`. */
    method RemoveFavorite(index: int)
      modifies this
      ensures favorites == SpliceOne(old(favorites), index)
      ensures NoDuplicates(old(favorites)) ==> NoDuplicates(favorites)
      ensures sourceLang == old(sourceLang) && targetLang == old(targetLang)
      ensures sourceText == old(sourceText) && translatedText == old(translatedText)
    {
      SpliceKeepsDistinct(favorites, index);
      favorites := SpliceOne(favorites, index);
    }

    /** `translateText`, with the reply the remote service gives: a blank
        source shows the placeholder, anything else the translation of the
        trimmed text. */
    method TranslateText(reply: PhraseDictionary.ApiReply)
      modifies this
      ensures var text := Trim(old(sourceText));
        translatedText == (if text == [] then Placeholder
                           else PhraseDictionary.MockTranslate(translations, commonWords, text, old(targetLang), reply))
      ensures sourceLang == old(sourceLang) && targetLang == old(targetLang)
      ensures sourceText == old(sourceText) && favorites == old(favorites)
    {
      var text := Trim(sourceText);
      if text == [] {
        translatedText := Placeholder;
        return;
      }
      translatedText := Translating;
      translatedText := PhraseDictionary.MockTranslate(translations, commonWords, text, targetLang, reply);
    }

    /** `swapLanguages`: refused under automatic detection; otherwise the two
        languages change places and a real translation becomes the new source
        text, which is then translated. */
    method SwapLanguages(reply: PhraseDictionary.ApiReply) returns (swapped: bool)
      modifies this
      ensures swapped <==> old(sourceLang) != "auto"
      ensures !swapped ==> (sourceLang == old(sourceLang) && targetLang == old(targetLang)
        && sourceText == old(sourceText) && translatedText == old(translatedText))
      ensures swapped ==> sourceLang == old(targetLang) && targetLang == old(sourceLang)
      ensures swapped && IsRealTranslation(old(translatedText)) ==> sourceText == old(translatedText)
      ensures swapped && IsRealTranslation(old(translatedText)) ==>
        var text := Trim(old(translatedText));
        translatedText == (if text == [] then Placeholder
                           else PhraseDictionary.MockTranslate(translations, commonWords, text, old(sourceLang), reply))
      ensures swapped && !IsRealTranslation(old(translatedText)) ==>
        (sourceText == old(sourceText) && translatedText == old(translatedText))
      ensures favorites == old(favorites)
    {
      if sourceLang == "auto" {
        return false;
      }
      sourceLang, targetLang := targetLang, sourceLang;
      if IsRealTranslation(translatedText) {
        sourceText := translatedText;
        TranslateText(reply);
      }
      swapped := true;
    }

    /** `autoSpellCheck` on the source box. */
    method AutoSpellCheck()
      modifies this
      ensures sourceText == Transcript.SpellChecked(old(sourceText))
      ensures sourceLang == old(sourceLang) && targetLang == old(targetLang)
      ensures translatedText == old(translatedText) && favorites == old(favorites)
    {
      var corrected, count := Transcript.AutoSpellCheck(sourceText);
      sourceText := corrected;
    }

    /** The `onresult` handler: the box shows the final text followed by the
        interim text; a non-blank final text is translated, after its language
        is detected when the source is `auto`. */
    method OnRecognitionResult(results: seq<Transcript.RecognitionResult>, resultIndex: nat,
                               reply: PhraseDictionary.ApiReply)
      returns (detected: Option<string>)
      modifies this
      ensures var parts := if resultIndex <= |results|
                           then Transcript.Contributions(results[resultIndex..]) else [];
        var finalText := Transcript.FinalText(parts);
        sourceText == finalText + Transcript.InterimText(parts)
        && (Trim(finalText) == [] ==> translatedText == old(translatedText) && detected == None)
        && (Trim(finalText) != [] ==>
              translatedText == (if Trim(sourceText) == [] then Placeholder
                                 else PhraseDictionary.MockTranslate(translations, commonWords, Trim(sourceText), old(targetLang), reply))
              && detected == (if old(sourceLang) == "auto"
                              then Some(LanguageDetection.Detected(finalText)) else None))
      ensures sourceLang == old(sourceLang) && targetLang == old(targetLang)
      ensures favorites == old(favorites)
    {
      var finalTranscript, interimTranscript := Transcript.AssembleTranscript(results, resultIndex);
      if resultIndex > |results| {
        assert Transcript.FinalText([]) == [] && Transcript.InterimText([]) == [];
      }
      sourceText := finalTranscript + interimTranscript;
      detected := None;
      if Trim(finalTranscript) != [] {
        if sourceLang == "auto" {
          var lang := LanguageDetection.DetectLanguage(finalTranscript);
          detected := Some(lang);
        }
        TranslateText(reply);
      }
    }
  }
}
