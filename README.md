# Voice translator, dashboard and sign-in page — a Dafny model

This project models the decision logic of the three browser scripts of a
small Arabic-first translation web app. It proves properties of that logic.

- `script.js` is the voice translator page (`VoiceTranslateApp`):
  - speech results are assembled and cleaned;
  - the language of a text is guessed;
  - a text is looked up in a built-in phrase dictionary after the remote
    translation service has been consulted;
  - a list of favourite phrases is kept;
  - a silent spelling fixer runs on the source box.
- `dashboard-script.js` is the signed-in dashboard:
  - a language pair can be swapped;
  - a history of saved translations is kept, newest first and capped at 50;
  - statistics are derived from that history;
  - translation is simulated with a keyed phrase table;
  - a character counter changes colour.
- `login-script.js` is the sign-in and registration page (`AuthManager`):
  - the e-mail, password-strength and confirmation validators;
  - the ordered checks of the two submit handlers;
  - the choice between persistent and per-tab session storage;
  - the show/hide password toggle and the loading state of the submit button.

The scripts contain no translation engine of their own. There is no scoring
or aggregation of several providers, and the model does not invent one: it
follows the code.

## Layout

- `Wrappers.dfy`: `Option`.
- `JsStrings.dfy`: the JavaScript string built-ins the scripts rely on, written out.
  - `trim` uses the ECMAScript whitespace set.
  - `replace(/\s+/g, ' ')`, `includes` and `split` are defined here.
  - `toLowerCase` is modelled on ASCII letters only.
  - `.length` counts UTF-16 code units (`JsLength`).
- `WordRegex.dfy`: the `new RegExp('\\b' + word + '\\b', 'gi')` replacement.
  - `\b` uses the ASCII word characters `[A-Za-z0-9_]`.
  - The `i` flag folds ASCII case.
  - `ApplyAll` folds a correction table in order; `MatchCount` counts the entries that fire.
- `LanguageDetection.dfy`: `detectLanguage`.
  - Each `text.match(pattern)` has no `g` flag, so each score is 0 or 1.
  - With the strict `>`, the result is the first class, in declaration order, that occurs in the text.
  - `DetectLanguage` is the loop; `Detected` is its specification.
- `Transcript.dfy`:
  - `cleanTranscript` and `autoSpellCheck`, each with its correction table;
  - choosing the best alternative of a speech result;
  - assembling the final and interim transcripts.
- `PhraseDictionary.dfy`: the tables and the lookup chain of `mockTranslateAPI`.
  - The chain is exact key, then substring, then single word, then common words, then the original text.
  - It includes the rule that accepts a reply of the remote service.
- `Languages.dfy`: the code → locale and code → name tables of both pages, and the language pair.
- `VoiceApp.dfy`: the class `VoiceTranslateApp` with favourites, translation, swap, spell check and the `onresult` handler.
- `Dashboard.dfy`: the history list, the statistics, `simulateTranslation`, the counter colour and the class `DashboardPage`.
- `Auth.dfy`: the validators, the form field, button and toggle classes, the storage choice and the class `AuthManager`.

Page elements the scripts update in place are class fields:
- the source box, the favourites, the dashboard's history and statistics;
- the e-mail field's border and error message;
- the button's text and state.

Input from outside the page becomes a method parameter:
- speech recognition events;
- the remote service's reply;
- `Date` values;
- the answers to `confirm` and `prompt`.

## Model

| member | source | states |
|---|---|---|
| JsStrings.Trim | script.js:320 | `String.prototype.trim`: the text with its leading and then its trailing ECMAScript whitespace removed |
| JsStrings.CollapseWhitespace | script.js:265 | `replace(/\s+/g, ' ')`: each maximal whitespace run becomes one space, everything else is copied |
| JsStrings.Lower | script.js:547 | `toLowerCase` on ASCII: same length, and each character lowered on its own |
| JsStrings.Contains | script.js:556 | `includes`: the key is a prefix of the text or of one of its suffixes |
| JsStrings.Split | script.js:562 | `split` on a one-character separator: the pieces between separators, always at least one |
| JsStrings.JsLength | login-script.js:124 | `.length`: one unit per character of the Basic Multilingual Plane, two for any other |
| JsStrings.TrimShape | script.js:265 | `trim()` yields a slice of the text with only whitespace removed around it; the slice starts and ends with no whitespace |
| JsStrings.TrimBlank | dashboard-script.js:450 | a text trims to the empty string exactly when every character of it is whitespace |
| Dashboard.NotBlankAt | dashboard-script.js:186 | a text with some non-whitespace character passes a `trim()` truthiness test |
| JsStrings.TrimOfNoEdgeWhitespace | script.js:265 | trimming a text without edge whitespace leaves it unchanged |
| JsStrings.JsLengthBounds | login-script.js:124 | `.length` lies between the number of characters and twice that; it equals the character count exactly when no character lies outside the Basic Multilingual Plane |
| JsStrings.CollapseWhitespaceEdges | script.js:265 | `replace(/\s+/g, ' ')` is empty exactly when the text is, and starts (ends) with whitespace exactly when the text does |
| JsStrings.CollapseWhitespaceRuns | script.js:265 | after collapsing, no two whitespace characters are adjacent, and each remaining one is a plain space |
| JsStrings.CollapseWhitespaceKeepsText | script.js:265 | collapsing keeps every non-whitespace character, in order |
| JsStrings.TrimCollapseNormalized | script.js:265 | trimming then collapsing gives text with no edge whitespace and no run of whitespace |
| JsStrings.CollapseNoWordChars | script.js:265 | trimming and collapsing never introduce an ASCII word character |
| JsStrings.LowerIdempotent | script.js:547 | lowering yields lowered text, and lowering twice is lowering once |
| JsStrings.ContainsAt | script.js:556 | `includes(key)` holds exactly when the key occurs at some position |
| JsStrings.ContainsSlice | script.js:556 | every slice of a text is included in it |
| JsStrings.SplitJoin | script.js:562 | joining the pieces of `split(' ')` with the separator gives the text back, and no piece holds the separator |
| JsStrings.SplitPiecesOccur | script.js:562 | every piece of `split(' ')` is included in the text, and the first one is a prefix of it |
| WordRegex.ReplaceWord | script.js:282-283 | the global, whole-word, case-insensitive replace: a left-to-right scan that puts the correction at each match and resumes after it |
| WordRegex.ApplyAll | script.js:281-284 | the entries of a table applied in table order, each to the result of the one before |
| WordRegex.MatchCount | script.js:840-847 | the number of entries whose pattern matches the text as corrected by the entries before it |
| WordRegex.NoOccurrenceUnchanged | script.js:282-283 | a whole-word, case-insensitive pattern that matches nowhere leaves the text unchanged |
| WordRegex.ChangedOnlyIfOccurs | script.js:282-283 | a replacement that changed the text had a match |
| WordRegex.MatchNeedsWordNeighbours | script.js:282 | `\b` before (after) a word whose first (last) character is not an ASCII word character matches only when an ASCII word character stands before (after) it — an Arabic key matches only beside ASCII letters, digits or `_` |
| WordRegex.NoWordCharsNoMatch | script.js:282 | a text without ASCII word characters matches no entry |
| WordRegex.WholeTextReplaced | script.js:282-283 | a text equal, up to ASCII case, to a key that starts and ends with word characters is replaced whole by the correction |
| WordRegex.ReplaceWordNormalized | script.js:283 | replacing with a correction free of whitespace keeps normalised text normalised |
| WordRegex.ApplyAllNormalized | script.js:281-284 | the whole correction fold keeps normalised text normalised |
| WordRegex.NoMatchesNoChange | script.js:842-849 | when no entry of the table matches, the fold leaves the text unchanged |
| WordRegex.CaselessMatchIsKey | script.js:843 | the `i` flag matches a key without ASCII letters only as the key itself |
| WordRegex.ReplaceFromSelf | script.js:282-283 | replacing a key without ASCII letters by itself leaves the text unchanged |
| WordRegex.IdentityMatchesNoChange | script.js:842-847 | when every entry that matches maps a key without ASCII letters to itself, the fold leaves the text unchanged, however many entries match |
| WordRegex.NoWordCharsUntouched | script.js:842-849 | a text without ASCII word characters passes through the fold unchanged, and no entry counts |
| WordRegex.ApplyAllStep | script.js:842-849 | entries apply in table order, one after the other; each adds one to the count exactly when it matches the text as corrected so far |
| WordRegex.LetterStringIsPlain | script.js:282 | a word of lower-case ASCII or Arabic letters is matched literally as a key (no whitespace, no regular-expression syntax, case folded exactly) and inserted literally as a correction (no whitespace, no `$`) |
| LanguageDetection.Score | script.js:389-397 | `(text.match(pattern) \|\| []).length` for a non-global pattern: 1 when some character of the class occurs, 0 otherwise |
| LanguageDetection.Detected | script.js:377-429 | reference definition of `detectLanguage`: the code of the first mentioned class in scoring order, `en` when none is |
| LanguageDetection.DetectLanguage | script.js:377-429 | the scoring loop returns `Detected(text)`, always one of `ar en zh ja ko fr de es it` |
| LanguageDetection.DetectedUnfold | script.js:378-428 | the result is the first of Arabic, ASCII letters, Han, kana, Hangul, French, German, Spanish and Italian letters that occurs in the text, and `en` when none does |
| LanguageDetection.ArabicWins | script.js:378-421 | the result is `ar` exactly when some Arabic character occurs |
| LanguageDetection.EnglishCases | script.js:379-426 | the result is `en` exactly when an ASCII letter occurs and no Arabic character does, or when no class occurs at all |
| LanguageDetection.AccentedNeedNoAsciiLetter | script.js:383-421 | French, German, Spanish or Italian is returned only for text with no ASCII letter, no Arabic, no Han, no kana and no Hangul |
| LanguageDetection.DetectedClassOccurs | script.js:389-421 | any result other than the default `en` is backed by an occurrence of its class |
| LanguageDetection.SingleChar | script.js:378-428 | a one-character text is classified by the first class that holds that character |
| LanguageDetection.UmlautsAreFrench | script.js:383-384 | `ü`, `ä` and `Ö` are detected as French, because the French class comes first, and `ß` as German |
| LanguageDetection.EveryCodeDetectable | script.js:400-410 | each of the nine codes is the result for some one-character text |
| Transcript.TranscriptCorrectionsValid | script.js:268-278 | every key of the transcript corrections is a plain word, and every correction is free of whitespace and `$` patterns |
| Transcript.CleanedTranscript | script.js:261-287 | reference definition of `cleanTranscript`: an empty input stays empty; otherwise trim, collapse whitespace runs and apply the corrections in table order |
| Transcript.CleanTranscript | script.js:261-287 | the loop returns `CleanedTranscript(text)`; the result has no edge whitespace and no whitespace run; an empty input gives `''` |
| Transcript.CleanedWithoutWordChars | script.js:262-284 | a text without ASCII word characters comes out only trimmed and collapsed, so the Arabic corrections never fire on plain Arabic speech |
| Transcript.CleanedWithoutMatches | script.js:265-284 | when no correction matches the collapsed text, cleaning is trimming and collapsing |
| Transcript.CorrectEach | script.js:838-849 | the loop over the table gives the in-order fold and the number of entries that fired |
| Transcript.SpellChecked | script.js:767-855 | reference definition of `autoSpellCheck`'s new box value: the corrected trimmed text when some correction matched, and the value untouched otherwise |
| Transcript.SpellCount | script.js:836-849 | the counter of `autoSpellCheck`: 0 for a blank box, otherwise the number of entries that matched the trimmed text as corrected so far |
| Transcript.AutoSpellCheck | script.js:767-855 | the new box value is `SpellChecked(value)` and the count is `SpellCount(value)` |
| Transcript.SpellCheckChangesOnlyOnMatch | script.js:852-854 | the box changes only when some correction fired |
| Transcript.SpellCheckIgnoresTextWithoutWordChars | script.js:776-808 | text without ASCII word characters is never touched and counts no correction |
| Transcript.SpellCheckWritesTrimmed | script.js:768-853 | once a correction fires, the box receives the trimmed, corrected text; when every entry that matched maps a word without ASCII letters to itself, that is the trimmed text: surrounding whitespace goes although no word changed |
| Transcript.BestIndex | script.js:187-197 | the chosen alternative has the highest confidence, and every earlier alternative has a strictly lower one (the earliest wins ties) |
| Transcript.ChooseAlternative | script.js:187-197 | the loop with `bestConfidence` picks `BestIndex` |
| Transcript.Contributions | script.js:185-207 | each result contributes its best transcript, cleaned, marked final or interim |
| Transcript.AssembleTranscript | script.js:182-207 | from `resultIndex` on, the final transcript is all final contributions in order and the interim transcript all interim ones; an index past the end gives two empty texts |
| Transcript.FinalText | script.js:200-206 | `finalTranscript`: the texts of the final contributions, concatenated in order |
| Transcript.InterimText | script.js:200-206 | `interimTranscript`: the texts of the interim contributions, concatenated in order |
| Transcript.FinalTextDistributes | script.js:202-203 | the final text of two runs of results is the concatenation of their final texts |
| Transcript.InterimTextDistributes | script.js:204-205 | the same for the interim text |
| Transcript.ContributionsPartition | script.js:202-206 | all-final results give no interim text, and all-interim results no final text |
| Transcript.SingleResult | script.js:200-206 | one result contributes its best transcript to exactly one of the two texts |
| PhraseDictionary.LookupKey | script.js:547 | `text.toLowerCase().trim()` |
| PhraseDictionary.ExactHit | script.js:550-552 | `table[key] && table[key][lang]`: the entry's non-empty text for the language when the key has an entry |
| PhraseDictionary.WordHit | script.js:562-567 | the first word, in order, that is a key with a non-empty text for the language |
| PhraseDictionary.LookupIn | script.js:547-602 | the exact, substring, single-word and common-word stages in their order, and the text itself when all miss |
| PhraseDictionary.Find | script.js:550 | a key lookup returns an entry with that key, or reports that no entry has it |
| PhraseDictionary.SubstringHit | script.js:555-559 | the partial search hits exactly when some entry's key is included in the text and has the target language, and it returns the first such entry's value |
| PhraseDictionary.LookupKeyShape | script.js:547 | the lookup key is lowered and has no edge whitespace |
| PhraseDictionary.WordsOfLoweredText | script.js:562 | each word of the lowered text is included in it and is itself lowered |
| PhraseDictionary.WordStageUnreachable | script.js:555-567 | the single-word stage never finds a value the substring stage missed |
| PhraseDictionary.LookupPrecedence | script.js:547-602 | the dictionary answer is the exact hit, else the first substring hit, else the common-word hit, else the original text |
| PhraseDictionary.LookupOrigin | script.js:547-602 | the dictionary answer is the original text or the target-language value of some table entry |
| PhraseDictionary.RemoteTranslation | script.js:363-373 | `useRealTranslationAPI`: the reply's `translatedText` for status 200 with a non-empty text, a failure for anything else or a failed request |
| PhraseDictionary.AcceptedRemote | script.js:369-373 | a remote reply is used exactly when it arrived with status 200 and a non-empty `translatedText` that differs from the input |
| PhraseDictionary.RequestSource | script.js:450-453 | the service is never asked to translate from `auto`: automatic detection is replaced by a detected code |
| PhraseDictionary.MockTranslate | script.js:448-603 | an accepted remote reply is returned as it is; otherwise the dictionary answers, with the original text or a table value |
| Languages.VoiceLocale | script.js:246-258 | a known code gets its own `xx-RR` locale, anything else `en-US`; the result is always a locale of the table |
| Languages.RecordingLocale | script.js:296-313 | recording uses `ar-SA` under automatic detection, and the source language's locale otherwise |
| Languages.DashboardLocale | dashboard-script.js:306-324 | the dashboard's `getLanguageCode`: its own locale for a known code, `en-US` otherwise |
| Languages.SectionLabel | dashboard-script.js:200-228 | a section shows a language name exactly when the code is known, and the generic source or target label otherwise |
| Languages.LocalesExtendCodes | script.js:246-258 | every voice locale is its code, a hyphen and a region |
| Languages.DashboardLocalesExtendCodes | dashboard-script.js:306-324 | the same for the dashboard's locales |
| Languages.VoiceTablesCoverDetection | script.js:432-445 | the voice page has a locale and a name for exactly the nine codes the detector returns |
| Languages.PagesAgreeOnLocales | dashboard-script.js:306-324 | the dashboard gives every language of the voice page the same locale |
| Languages.PagesAgreeOnNames | dashboard-script.js:573-591 | the dashboard gives every language of the voice page the same name |
| Languages.DashboardExtras | dashboard-script.js:306-324 | the dashboard adds exactly Portuguese, Russian, Hindi and Turkish, and names exactly the languages it has locales for |
| Languages.NamesIdentifyLanguages | dashboard-script.js:573-591 | no two languages share a display name |
| Languages.VoiceLanguageName | script.js:432-445 | the voice page's name for a code, and the code itself for an unknown one |
| Languages.DashboardLanguageName | dashboard-script.js:573-591 | the dashboard's name for a code, and the code itself for an unknown one |
| Languages.NameFallbackVisible | dashboard-script.js:573-591 | `names[code] \|\| code` returns the code itself exactly when the code is unknown, on both pages |
| Languages.Swapped | dashboard-script.js:170-173 | the exchange through `temp` puts the old target in `from` and the old source in `to` |
| Languages.SwapInvolution | dashboard-script.js:170-173 | swapping twice restores the pair, and a swap changes nothing exactly when both sides are equal |
| VoiceApp.LoadedFavorites | script.js:722-733 | a parsed stored list is used as it is, even an empty one; missing or unparsable storage gives the four duplicate-free default phrases |
| VoiceApp.AddOutcomeOf | script.js:705-714 | the early returns of `addToFavorites` in their order: a blank trimmed text, then a text already saved |
| VoiceApp.IsRealTranslation | script.js:693 | the output text is non-empty and neither the placeholder nor the in-progress text |
| VoiceApp.AfterAdd | script.js:704-720 | an accepted add appends the trimmed text at the end and keeps the rest; a rejected add changes nothing; a duplicate-free list stays duplicate-free |
| VoiceApp.AddAcceptsExactly | script.js:705-714 | an add is accepted exactly when the trimmed text is non-blank and not yet a favourite |
| VoiceApp.SpliceStart | script.js:758 | `splice`'s start index lies within the list and equals the index whenever that is a valid position |
| VoiceApp.SpliceOne | script.js:758 | `splice(index, 1)` drops the element at the start index, keeps the others in order, and changes nothing past the end |
| VoiceApp.SpliceKeepsDistinct | script.js:757-762 | removing a favourite keeps a duplicate-free list duplicate-free and adds no phrase |
| VoiceApp.VoiceTranslateApp.constructor | script.js:36-43 | a new page holds the favourites loaded from storage and shows the placeholder |
| VoiceApp.VoiceTranslateApp.AddToFavorites | script.js:704-720 | the favourites become `AfterAdd` of the old ones and the box; nothing else changes |
| VoiceApp.VoiceTranslateApp.RemoveFavorite | script.js:757-762 | the favourites become `SpliceOne` of the old ones and stay duplicate-free |
| VoiceApp.VoiceTranslateApp.TranslateText | script.js:319-356 | blank text shows the placeholder; anything else shows the translation of the trimmed text into the target language |
| VoiceApp.VoiceTranslateApp.SwapLanguages | script.js:680-702 | refused under `auto`; otherwise the languages change places, and a real translation (not empty and not a placeholder) becomes the source text and is translated into the old source language, shown as the mock translation of its trimmed text |
| VoiceApp.VoiceTranslateApp.AutoSpellCheck | script.js:767-855 | the box becomes `SpellChecked` of its old value |
| VoiceApp.VoiceTranslateApp.OnRecognitionResult | script.js:181-221 | the box shows finals then interims; a non-blank final transcript is translated, after detection when the source is `auto` |
| Dashboard.PushRecent | dashboard-script.js:406-411 | the new entry is first, the list holds at most 50 entries, and the rest is the old list in order, cut to 49 |
| Dashboard.WithoutId | dashboard-script.js:642 | `filter(t => t.id !== id)`: the entries with another id, in their order |
| Dashboard.WithoutIdMembers | dashboard-script.js:642 | the filtered list holds exactly the entries whose id differs |
| Dashboard.WithoutIdDistributes | dashboard-script.js:642 | filtering works piece by piece, so the kept entries keep their order |
| Dashboard.WithoutAbsentId | dashboard-script.js:642 | deleting an id no entry has changes nothing |
| Dashboard.WithoutIdIdempotent | dashboard-script.js:642 | deleting twice is deleting once |
| Dashboard.LanguagesOf | dashboard-script.js:655-659 | the set holds exactly the codes some entry uses as source or target |
| Dashboard.LanguagesBound | dashboard-script.js:655-660 | there are at most twice as many distinct codes as entries |
| Dashboard.StatsFor | dashboard-script.js:651-660 | `savedPhrases` is the list length, `languagesUsed` at most twice that, and the translation counter is kept |
| Dashboard.SimulateTranslation | dashboard-script.js:492-524 | the table entry of the `from-to` key when it exists and is non-empty; otherwise a tag for the pair followed by the original text |
| Dashboard.PairKeyNamesOnePair | dashboard-script.js:509-510 | only `ar-en` and `en-ar` have phrase tables |
| Dashboard.SimulatedRoundTrip | dashboard-script.js:494-514 | a phrase of the Arabic→English table translated there and back gives the phrase again |
| Dashboard.CounterColourOf | dashboard-script.js:434-440 | the danger colour above 4500, the warning colour above 3500, the normal one otherwise |
| Dashboard.CounterMonotone | dashboard-script.js:434-440 | the counter colour never becomes less severe as the count grows |
| Dashboard.CounterColourFor | dashboard-script.js:430-440 | the counter colour of a text, from its length in UTF-16 code units |
| Dashboard.CounterColourForText | dashboard-script.js:430-440 | a text of at most 1750 characters is always shown in the normal colour, and one of more than 4500 characters in the danger colour |
| Dashboard.TranslateButtonDisabled | dashboard-script.js:445-452 | the translate button is disabled exactly when the input is all whitespace |
| Dashboard.ExchangedTexts | dashboard-script.js:186-194 | the texts are exchanged exactly when the output is non-blank after trimming |
| Dashboard.ExchangeTwice | dashboard-script.js:170-197 | swapping twice restores the texts unless the first swap moved a blank input into the output |
| Dashboard.ClearedOutputMovesOnSwap | dashboard-script.js:342-348 | the text of the placeholder `clearInput` writes is not blank, so a swap right after clearing moves it into the input box |
| Dashboard.DashboardPage.constructor | dashboard-script.js:1-28 | the page starts with `ar`→`en`, the stored history, statistics consistent with it, no scheduled translation, and the two text boxes as the markup gives them |
| Dashboard.DashboardPage.UpdateUserStats | dashboard-script.js:651-671 | the `forEach` loop over the history leaves `StatsFor` of the list, so the statistics agree with it |
| Dashboard.DashboardPage.SwapLanguages | dashboard-script.js:170-197 | the pair is swapped and the texts become `ExchangedTexts`; nothing else changes |
| Dashboard.DashboardPage.ClearInput | dashboard-script.js:333-350 | the input box is emptied and the output box holds the placeholder's text; nothing else changes |
| Dashboard.DashboardPage.SaveTranslation | dashboard-script.js:391-422 | a save happens exactly when both trimmed texts are non-blank; it pushes the trimmed entry and refreshes the statistics |
| Dashboard.DashboardPage.DeleteSavedTranslation | dashboard-script.js:640-648 | when confirmed, the history loses exactly the entries with that id; otherwise nothing changes |
| Dashboard.DashboardPage.PerformTranslation | dashboard-script.js:455-470 | a blank input is refused with nothing changed; anything else schedules one translation |
| Dashboard.DashboardPage.CompleteTranslation | dashboard-script.js:471-488 | the timer shows the simulated translation of the input and raises `totalTranslations` by exactly one |
| Auth.EmailValidHasShape | login-script.js:109-110 | an accepted address has no whitespace, exactly one `@` with text before it, and a `.` inside the domain that is neither its first nor its last character |
| Auth.EmailShapeIsValid | login-script.js:109-110 | every text of that shape is accepted |
| Auth.EmailValidExactly | login-script.js:109-110 | the pattern accepts exactly the texts of that shape |
| Auth.EmailValidNonEmpty | login-script.js:193-197 | an accepted address has at least five characters and does not start with `@` |
| Auth.DotInsideDomain | login-script.js:109 | `a@b.` and `a@.b` are rejected |
| Auth.SingleAtNoBlank | login-script.js:109 | `a@b@c.d` and `a b@c.d` are rejected |
| Auth.DemoAddressValid | login-script.js:289 | the demo address `test@example.com` is accepted |
| Auth.StrengthMessage | login-script.js:126-133 | the message is empty exactly when the password is strong; otherwise it is the length message below 8 code units, else the composition message |
| Auth.StrongPasswordSize | login-script.js:118-124 | a strong password has an upper-case letter, a lower-case letter and a digit at three different positions |
| Auth.LongWithoutUpper | login-script.js:124-130 | eight or more characters without an upper-case letter fail on composition, not length |
| Auth.DemoPasswordWeak | login-script.js:289 | the demo password `password123` is long enough but has no upper-case letter |
| Auth.DemoCredentials | login-script.js:289 | the demo credentials log in, while registering with the same password is refused as weak |
| Auth.PasswordsMatch | login-script.js:137-147 | the confirmation passes exactly when both fields exist and hold equal values, and it is symmetric |
| Auth.InputField.constructor | login-script.js:188-190 | a form field holds its value and shows no error |
| Auth.InputField.SetInputValidation | login-script.js:149-174 | the old error goes; the border turns green or red; an error is shown exactly for an invalid field with a non-empty message, and it carries that message |
| Auth.InputField.ClearValidationError | login-script.js:176-183 | the error goes and the border returns to neutral; the value is kept |
| Auth.LoadingView | login-script.js:347-353 | loading disables the button, shows the loading text and remembers the old text |
| Auth.IdleView | login-script.js:354-362 | leaving the loading state re-enables the button; a remembered text is restored with the button's own icon, and without one the text stays |
| Auth.LoadingRoundTrip | login-script.js:346-363 | loading then idle gives back an enabled, opaque button with its label and its own icon |
| Auth.AuthButton.constructor | login-script.js:346-363 | a new button is enabled and opaque, with its caption and icon and no remembered text |
| Auth.AuthButton.SetButtonLoading | login-script.js:346-363 | the button's view becomes `LoadingView` or `IdleView` of its old view |
| Auth.ToggledType | login-script.js:79-81 | `password` becomes `text`, and any other type becomes `password` |
| Auth.ToggleTwice | login-script.js:79-81 | toggling always changes the type, and toggling twice restores it exactly for `password` and `text` |
| Auth.PasswordInput.constructor | login-script.js:76-77 | an input of the given type |
| Auth.ToggleButton.constructor | login-script.js:75-77 | a button with its caption and the field its `data-target` names, if any |
| Auth.AfterSave | login-script.js:308-320 | a remembered session writes a logged-in record to `localStorage`, any other session to `sessionStorage`; the other store is untouched |
| Auth.ResumedSession | login-script.js:454-455 | a truthy `localStorage` value is read, and `sessionStorage` otherwise |
| Auth.Redirects | login-script.js:454-468 | the visitor is sent on exactly when the stored session found first is a record marked logged in |
| Auth.SavedSessionFound | login-script.js:454-463 | a remembered session is always found and redirects; a per-tab one is found exactly when `localStorage` is empty or itself holds a logged-in record |
| Auth.EmailValid | login-script.js:109-110 | a non-empty run without whitespace or `@`, an `@`, such a run, a `.` and such a run, covering the whole text |
| Auth.PasswordStrong | login-script.js:124 | at least eight UTF-16 code units, with an ASCII upper-case letter, a lower-case letter and a digit |
| Auth.LoginOutcomeOf | login-script.js:193-200 | the early returns of `handleLogin` in their order: the address check, then the empty-field check |
| Auth.RegisterOutcomeOf | login-script.js:237-257 | the early returns of `handleRegister` in their order: empty fields, address, strength, confirmation, terms |
| Auth.LoginSucceedsExactly | login-script.js:193-200 | a login succeeds exactly for an accepted address with a non-empty password, and reports missing fields only for an accepted address with an empty password |
| Auth.RegisterSucceedsExactly | login-script.js:237-257 | a registration succeeds exactly when a name is given, the address is accepted, the password is strong, the confirmation equals it and the terms are accepted |
| Auth.RegisterFailureOrder | login-script.js:237-257 | each failure is reported only when all earlier checks passed |
| Auth.ForgotPasswordAsWritten | login-script.js:334-344 | as written: an empty or cancelled reply shows nothing, and any other reply throws a `TypeError` |
| Auth.ForgotPasswordNeverAnswers | login-script.js:334-344 | as written, no reply to the prompt ever produces a notice, and `test@example.com` raises a `TypeError` |
| Auth.ForgotPasswordNotice | login-script.js:334-344 | corrected: an empty reply shows nothing; the reset notice comes exactly for an accepted address, an error notice for anything else |
| Auth.AuthManager.constructor | login-script.js:4-7 | the page starts with the stores it finds |
| Auth.AuthManager.ValidateEmail | login-script.js:108-114 | the verdict of the pattern on the field's value; the border turns green or red with it, and the error message is shown exactly when it fails |
| Auth.AuthManager.ValidatePasswordStrength | login-script.js:116-135 | strong exactly as `PasswordStrong`; the border turns green or red with it, and an error, `StrengthMessage`, is shown exactly for a weak password |
| Auth.AuthManager.ValidatePasswordMatch | login-script.js:137-147 | `PasswordsMatch` of the two fields; when both are present, the confirmation field's border turns green or red with it and the field shows the mismatch error exactly when they differ |
| Auth.AuthManager.SaveUserSession | login-script.js:308-320 | the stores become `AfterSave` of the old ones |
| Auth.AuthManager.HandleLogin | login-script.js:185-225 | the outcome is `LoginOutcomeOf`; the address field always shows the address verdict (border and error); only a successful login saves a session, in the store "remember me" chooses, and only then does the button pass through loading and back to idle |
| Auth.AuthManager.HandleRegister | login-script.js:227-282 | the outcome is `RegisterOutcomeOf` (five checks in order); the address field shows its verdict once all fields are filled, the password field once the address passed, the confirmation field once the password is strong, and each field is untouched before its check is reached; only a registration saves a session, always in `sessionStorage`, and only then does the button pass through loading and back to idle |
| Auth.AuthManager.TogglePasswordVisibility | login-script.js:74-83 | the target field's type flips and the caption shows the matching eye; without a target nothing changes |
| Auth.AuthManager.HandleForgotPassword | login-script.js:334-344 | answers as `ForgotPasswordNotice` (the corrected handler) and leaves the stores alone |

## Left out

- DOM work is left out: element lookups, `innerHTML` templates, CSS classes, toasts and notifications (`showMessage`, `showNotification`, `updateStatus`), page redirects, `switchTab`, `handleSocialLogin` (a timer and a message) and the dashboard's other navigation and feature handlers. They carry no decision logic; only the redirect decision of `checkExistingSession` is modelled (`Auth.Redirects`).
- Speech recognition and synthesis start/stop, microphone and support probing, the clipboard and `navigator.share`: browser services without logic of their own. The result event of `onresult` and the locale choices are modelled.
- The `fetch` to the remote translation service is network I/O. Its outcome is the parameter `ApiReply`, and only what the page does with it is modelled.
- Image upload, the canvas and `simulateOCR` rely on foreign APIs and `Math.random`.
- `setTimeout` delays are left out. The 500 ms wait in `mockTranslateAPI` and the button timers are timing only. The dashboard's delayed translation is two steps, `PerformTranslation` and `CompleteTranslation`, linked by a `pending` counter. The completion reads the input as it is when the timer fires.
- `async` ordering is left out: the model runs each awaited call to completion at the point it is awaited.
- VoiceApp.VoiceTranslateApp.OnRecognitionResult and VoiceApp.VoiceTranslateApp.SwapLanguages: `translateText()` is called there without `await` (script.js:219, 697), yet the model completes it at once. So no later handler can see the transient `جاري الترجمة...` text, and two overlapping translations never race for the output box.
- JSON persistence in `localStorage`/`sessionStorage` is modelled as already-parsed datatypes (`StoredFavorites`, `StoredSession`, the dashboard's stored list). JSON text itself is not modelled. The uncaught `JSON.parse` at the top of the dashboard script (dashboard-script.js:9-10) is taken to succeed.
- `Date.now()` ids, timestamps and dates are parameters. So are the `confirm` and `prompt` answers.
- `toLowerCase` is ASCII-only in `JsStrings.Lower`. Non-ASCII upper-case letters in a looked-up text are not lowered, as they would be in a browser.
- Confidences are reals. A missing or `NaN` confidence is not modelled; those are the only values that `\|\| 0` at script.js:188 would replace with `0`.
- Dashboard.SimulateTranslation: the lookup `translationMap[text]` (dashboard-script.js:512-513) also finds names inherited from `Object.prototype`. For the pairs `ar-en` and `en-ar`, an input of `constructor`, `toString`, `valueOf` or `__proto__` returns the inherited value, which is truthy, so the page shows that value's text (for `constructor`, `function Object() { [native code] }`). The model gives the tagged original text instead. The voice page's lookups read a further language field from the found value, which an inherited value lacks, so they fall through to the default as the model has it. The language-code tables are only indexed with codes from the page's own selectors.
- The `catch` branch of `translateText` and its error text are not modelled. Every failure inside `mockTranslateAPI` is already caught there.
- The special-character check at login-script.js:122 is computed and never used, so it is not modelled.
- `speakTranslation` and `copyTranslation` are left out except for the locale `speakTranslation` picks (`Languages.VoiceLocale`).
- The phrase dictionaries and correction tables are constants. `VoiceTranslateApp` holds the two dictionary tables as fields fixed at construction.
- VoiceApp.VoiceTranslateApp.constructor: the source box is taken to start empty and the output box to show the placeholder `الترجمة ستظهر هنا...`, the text `swapLanguages` tests for. The page markup that sets them is not part of this model.
- Auth.InputField.constructor: the starting border of a field is taken to be the neutral grey `clearValidationError` sets. The stylesheet that would decide it is not part of this model.
- Transcript.CleanTranscript and Transcript.SpellChecked: the `i` flag is ASCII case folding. This is exact for the table keys, which are ASCII letters or Arabic letters. Non-Unicode regular expressions never fold a non-ASCII character to an ASCII one.

## Findings

| source | as written | input that shows it | evidently intended | confidence | as-written member | corrected member |
|---|---|---|---|---|---|---|
| login-script.js:334-344 | `handleForgotPassword` passes a plain object `{ value: email }` to `validateEmail`. That calls `setInputValidation`, which calls `input.closest(...)` whether or not the address is valid (login-script.js:149-150). A plain object has no `closest`, so a `TypeError` is thrown before either message is shown. | any non-empty reply to the prompt, e.g. `test@example.com` | an accepted address gets the reset notice, anything else non-empty gets the e-mail error, and an empty or cancelled reply shows nothing | not executed | Auth.ForgotPasswordNeverAnswers | Auth.ForgotPasswordNotice |
