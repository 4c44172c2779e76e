/** Language codes, their Arabic display names and their speech locales, as
    the voice translator page and the dashboard page each define them, and the
    source/target language pair. */
module Languages {
  import LanguageDetection

  /** `langMap` of the voice translator (recognition and speech). */
  const VoiceLocales: map<string, string> := map[
    "ar" := "ar-SA", "en" := "en-US", "fr" := "fr-FR", "es" := "es-ES", "de" := "de-DE",
    "it" := "it-IT", "ja" := "ja-JP", "ko" := "ko-KR", "zh" := "zh-CN"
  ]

  /** `languageNames` of the voice translator. */
  const VoiceNames: map<string, string> := map[
    "ar" := "العربية", "en" := "الإنجليزية", "fr" := "الفرنسية", "es" := "الإسبانية",
    "de" := "الألمانية", "it" := "الإيطالية", "ja" := "اليابانية", "ko" := "الكورية",
    "zh" := "الصينية"
  ]

  /** `codes` of the dashboard's `getLanguageCode`. */
  const DashboardLocales: map<string, string> := map[
    "ar" := "ar-SA", "en" := "en-US", "fr" := "fr-FR", "es" := "es-ES", "de" := "de-DE",
    "it" := "it-IT", "pt" := "pt-BR", "ru" := "ru-RU", "ja" := "ja-JP", "ko" := "ko-KR",
    "zh" := "zh-CN", "hi" := "hi-IN", "tr" := "tr-TR"
  ]

  /** `names` of the dashboard's `getLanguageName`; `updateLanguageDisplay`
      holds the same table. */
  const DashboardNames: map<string, string> := map[
    "ar" := "العربية", "en" := "الإنجليزية", "fr" := "الفرنسية", "es" := "الإسبانية",
    "de" := "الألمانية", "it" := "الإيطالية", "pt" := "البرتغالية", "ru" := "الروسية",
    "ja" := "اليابانية", "ko" := "الكورية", "zh" := "الصينية", "hi" := "الهندية",
    "tr" := "التركية"
  ]

  const DefaultLocale := "en-US"
  const SourceLabelDefault := "اللغة المصدر"
  const TargetLabelDefault := "اللغة الهدف"

  /** `langMap[lang] || 'en-US'`: the locale of a known code, US English
      otherwise; always one of the table's locales. */
  function VoiceLocale(lang: string): (r: string)
    ensures r in VoiceLocales.Values
    ensures lang in VoiceLocales ==> |r| == 5 && r[..2] == lang && r[2] == '-'
    ensures lang !in VoiceLocales ==> r == DefaultLocale
  {
    LocalesExtendCodes();
    assert VoiceLocales["en"] == DefaultLocale;
    if lang in VoiceLocales then VoiceLocales[lang] else DefaultLocale
  }

  /** The locale `toggleRecording` sets before starting: Arabic for automatic
      detection, otherwise the source language's locale. */
  function RecordingLocale(sourceLang: string): (r: string)
    ensures r in VoiceLocales.Values
    ensures sourceLang == "auto" ==> r == "ar-SA"
  {
    if sourceLang == "auto" then
      assert VoiceLocales["ar"] == "ar-SA";
      "ar-SA"
    else VoiceLocale(sourceLang)
  }

  /** `languageNames[code] || code`. */
  function VoiceLanguageName(code: string): string {
    if code in VoiceNames then VoiceNames[code] else code
  }

  /** `codes[lang] || 'en-US'`. */
  function DashboardLocale(lang: string): (r: string)
    ensures r in DashboardLocales.Values
    ensures lang in DashboardLocales ==> |r| == 5 && r[..2] == lang && r[2] == '-'
    ensures lang !in DashboardLocales ==> r == DefaultLocale
  {
    DashboardLocalesExtendCodes();
    assert DashboardLocales["en"] == DefaultLocale;
    if lang in DashboardLocales then DashboardLocales[lang] else DefaultLocale
  }

  /** `names[code] || code`. */
  function DashboardLanguageName(code: string): string {
    if code in DashboardNames then DashboardNames[code] else code
  }

  /** The label `updateLanguageDisplay` gives a section: the language's name,
      or the generic source or target label. */
  function SectionLabel(code: string, isSource: bool): (r: string)
    ensures r in DashboardNames.Values <==> code in DashboardNames
    ensures code !in DashboardNames ==> r == (if isSource then SourceLabelDefault else TargetLabelDefault)
  {
    assert SourceLabelDefault !in DashboardNames.Values && TargetLabelDefault !in DashboardNames.Values;
    if code in DashboardNames then DashboardNames[code]
    else if isSource then SourceLabelDefault
    else TargetLabelDefault
  }

  // ---------------------------------------------------------------------
  // The tables

  /** Every locale is its code, a hyphen and a region. */
  lemma LocalesExtendCodes()
    ensures forall c :: c in VoiceLocales ==>
      |VoiceLocales[c]| == 5 && VoiceLocales[c][..2] == c && VoiceLocales[c][2] == '-'
  {
  }

  lemma DashboardLocalesExtendCodes()
    ensures forall c :: c in DashboardLocales ==>
      |DashboardLocales[c]| == 5 && DashboardLocales[c][..2] == c && DashboardLocales[c][2] == '-'
  {
  }

  /** The voice translator knows exactly the languages its detector can return:
      `speakTranslation` and `getLanguageName` never fall back for a detected
      code. */
  lemma VoiceTablesCoverDetection()
    ensures VoiceLocales.Keys == LanguageDetection.DetectableCodes
    ensures VoiceNames.Keys == LanguageDetection.DetectableCodes
  {
  }

  /** The two pages give every language the voice translator knows the same
      locale ... */
  lemma PagesAgreeOnLocales()
    ensures forall c :: c in VoiceLocales ==> c in DashboardLocales && DashboardLocales[c] == VoiceLocales[c]
  {
  }

  /** ... and the same name. */
  lemma PagesAgreeOnNames()
    ensures forall c :: c in VoiceNames ==> c in DashboardNames && DashboardNames[c] == VoiceNames[c]
  {
  }

  /** The dashboard adds Portuguese, Russian, Hindi and Turkish, and names
      every language it has a locale for. */
  lemma DashboardExtras(c: string)
    ensures c in DashboardLocales && c !in VoiceLocales <==> c in {"pt", "ru", "hi", "tr"}
    ensures c in DashboardNames <==> c in DashboardLocales
  {
  }

  /** No two languages share a display name. */
  lemma NamesIdentifyLanguages(a: string, b: string)
    requires a in DashboardNames && b in DashboardNames && a != b
    ensures DashboardNames[a] != DashboardNames[b]
  {
  }

  /** No name is itself a code, so the name-or-code fallback tells known codes
      from unknown ones. */
  lemma NameFallbackVisible(a: string)
    ensures DashboardLanguageName(a) == a <==> a !in DashboardNames
    ensures VoiceLanguageName(a) == a <==> a !in VoiceNames
  {
  }

  // ---------------------------------------------------------------------
  // The language pair

  /** The dashboard's `currentLanguages`, and the selected source and target
      of the voice translator. */
  datatype LanguagePair = LanguagePair(from: string, to: string)

  const InitialPair := LanguagePair("ar", "en")

  /** The exchange through `temp`. */
  function Swapped(p: LanguagePair): (r: LanguagePair)
    ensures r.from == p.to && r.to == p.from
  {
    LanguagePair(p.to, p.from)
  }

  lemma SwapInvolution(p: LanguagePair)
    ensures Swapped(Swapped(p)) == p
    ensures Swapped(p) == p <==> p.from == p.to
  {
  }
}
