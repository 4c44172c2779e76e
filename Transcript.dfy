/** Cleaning of speech-recognition transcripts, the silent spell checker of the
    source text box, and the assembly of a recognition event into the text
    shown in the source box. */
module Transcript {
  import opened JsStrings
  import opened WordRegex

  /** The `corrections` object of `cleanTranscript`, in key order. */
  const TranscriptCorrections: seq<Correction> := [
    Correction("ترانسليت", "ترجم"), Correction("ترانزليت", "ترجم"), Correction("translate", "ترجم"),
    Correction("هاي", "مرحبا"), Correction("باي", "وداعا"), Correction("اوكي", "حسنا"),
    Correction("اوك", "حسنا"), Correction("يس", "نعم"), Correction("نو", "لا")
  ]

  /** The `corrections` object of `autoSpellCheck`, in key order. */
  const SpellingCorrections: seq<Correction> := [
    Correction("اهلا", "أهلاً"), Correction("مرحبا", "مرحباً"), Correction("شكرا", "شكراً"),
    Correction("اسف", "آسف"), Correction("انا", "أنا"), Correction("انت", "أنت"),
    Correction("هذا", "هذا"), Correction("هذه", "هذه"), Correction("التي", "التي"),
    Correction("الذي", "الذي"), Correction("ايضا", "أيضاً"), Correction("لكن", "لكن"),
    Correction("كيف", "كيف"), Correction("ماذا", "ماذا"), Correction("متى", "متى"),
    Correction("اين", "أين"), Correction("لماذا", "لماذا"), Correction("كم", "كم"),
    Correction("من", "من"), Correction("الى", "إلى"), Correction("على", "على"),
    Correction("في", "في"), Correction("مع", "مع"), Correction("عن", "عن"),
    Correction("بعد", "بعد"), Correction("قبل", "قبل"), Correction("تحت", "تحت"),
    Correction("فوق", "فوق"), Correction("امام", "أمام"), Correction("خلف", "خلف"),
    Correction("بين", "بين"), Correction("داخل", "داخل"), Correction("خارج", "خارج"),
    Correction("teh", "the"), Correction("adn", "and"), Correction("taht", "that"),
    Correction("thier", "their"), Correction("recieve", "receive"), Correction("seperate", "separate"),
    Correction("definately", "definitely"), Correction("occured", "occurred"), Correction("begining", "beginning"),
    Correction("beleive", "believe"), Correction("acheive", "achieve"), Correction("wierd", "weird"),
    Correction("freind", "friend"), Correction("neccessary", "necessary"), Correction("accomodate", "accommodate"),
    Correction("embarass", "embarrass"), Correction("existance", "existence"), Correction("goverment", "government"),
    Correction("independant", "independent"), Correction("maintainance", "maintenance"), Correction("occassion", "occasion"),
    Correction("priviledge", "privilege"), Correction("recomend", "recommend"), Correction("succesful", "successful"),
    Correction("tommorrow", "tomorrow"), Correction("untill", "until")
  ]

  lemma TranscriptCorrectionsValid()
    ensures ValidTable(TranscriptCorrections)
  {
    forall e | e in TranscriptCorrections
      ensures PlainWord(e.wrong) && PlainReplacement(e.right)
    {
      assert LetterString(e.wrong) && LetterString(e.right);
      LetterStringIsPlain(e.wrong);
      LetterStringIsPlain(e.right);
    }
  }

  // ---------------------------------------------------------------------
  // cleanTranscript

  /** Reference definition of `cleanTranscript`: the empty string stays empty;
      otherwise trim, turn each whitespace run into one space, then apply the
      corrections in table order. */
  function CleanedTranscript(text: string): string {
    if text == [] then []
    else ApplyAll(CollapseWhitespace(Trim(text)), TranscriptCorrections)
  }

  method CleanTranscript(text: string) returns (r: string)
    ensures r == CleanedTranscript(text)
    ensures Normalized(r)
    ensures text == [] ==> r == []
  {
    if text == [] {
      return [];
    }
    var base := CollapseWhitespace(Trim(text));
    r := base;
    var i := 0;
    while i < |TranscriptCorrections|
      invariant 0 <= i <= |TranscriptCorrections|
      invariant forall e :: e in TranscriptCorrections[..i] ==> e.wrong != []
      invariant r == ApplyAll(base, TranscriptCorrections[..i])
    {
      ApplyAllStep(base, TranscriptCorrections, i);
      var e := TranscriptCorrections[i];
      r := ReplaceWord(r, e.wrong, e.right);
      i := i + 1;
    }
    assert TranscriptCorrections[..i] == TranscriptCorrections;
    TrimCollapseNormalized(text);
    TranscriptCorrectionsValid();
    ApplyAllNormalized(base, TranscriptCorrections);
  }

  /** A transcript without any `\w` character, such as one in Arabic script
      only, is only normalised: every correction key needs an ASCII word
      character next to it to match. */
  lemma CleanedWithoutWordChars(text: string)
    requires NoWordChars(text)
    ensures CleanedTranscript(text) == CollapseWhitespace(Trim(text))
  {
    if text != [] {
      CollapseNoWordChars(text);
      CollapseNoWordChars(Trim(text));
      NoWordCharsUntouched(CollapseWhitespace(Trim(text)), TranscriptCorrections);
    }
  }

  /** When no correction finds a match, cleaning is whitespace normalisation. */
  lemma CleanedWithoutMatches(text: string)
    requires text != []
    requires MatchCount(CollapseWhitespace(Trim(text)), TranscriptCorrections) == 0
    ensures CleanedTranscript(text) == CollapseWhitespace(Trim(text))
  {
    NoMatchesNoChange(CollapseWhitespace(Trim(text)), TranscriptCorrections);
  }

  // ---------------------------------------------------------------------
  // autoSpellCheck

  /** The number of corrections that find a match in the trimmed text. */
  function SpellCount(value: string): nat {
    var text := Trim(value);
    if text == [] then 0 else MatchCount(text, SpellingCorrections)
  }

  /** Reference definition of `autoSpellCheck`: the box is rewritten with the
      corrected trimmed text only when some correction matched, and is left as
      it is (untrimmed) otherwise. */
  function SpellChecked(value: string): string {
    var text := Trim(value);
    if text == [] || MatchCount(text, SpellingCorrections) == 0 then value
    else ApplyAll(text, SpellingCorrections)
  }

  /** `autoSpellCheck`: a blank box is left alone; otherwise the trimmed text
      is corrected and written back only when some correction matched. */
  method AutoSpellCheck(value: string) returns (newValue: string, count: nat)
    ensures newValue == SpellChecked(value)
    ensures count == SpellCount(value)
  {
    var text := Trim(value);
    newValue := value;
    count := 0;
    if text == [] {
      return;
    }
    var corrected;
    corrected, count := CorrectEach(text, SpellingCorrections);
    if count > 0 {
      newValue := corrected;
    }
  }

  /** The `forEach` over a correction table: each correction is matched first
      and, when it matches, applied and counted. */
  method CorrectEach(text: string, table: seq<Correction>) returns (corrected: string, count: nat)
    ensures corrected == ApplyAll(text, table)
    ensures count == MatchCount(text, table)
  {
    corrected := text;
    count := 0;
    var i := 0;
    while i < |table|
      invariant 0 <= i <= |table|
      invariant corrected == ApplyAll(text, table[..i])
      invariant count == MatchCount(text, table[..i])
    {
      ApplyAllStep(text, table, i);
      var e := table[i];
      if Occurs(corrected, e.wrong) {
        corrected := ReplaceWord(corrected, e.wrong, e.right);
        count := count + 1;
      } else {
        NoOccurrenceUnchanged(corrected, e.wrong, e.right);
      }
      i := i + 1;
    }
    assert table[..i] == table;
  }

  /** With no match the box keeps its exact value, surrounding whitespace
      included; a change means at least one correction matched. */
  lemma SpellCheckChangesOnlyOnMatch(value: string)
    ensures SpellCount(value) == 0 ==> SpellChecked(value) == value
    ensures SpellChecked(value) != value ==> SpellCount(value) > 0
  {
  }

  /** Text without `\w` characters is never touched, so the Arabic entries of
      the dictionary do nothing to text in Arabic script only. */
  lemma SpellCheckIgnoresTextWithoutWordChars(value: string)
    requires NoWordChars(value)
    ensures SpellChecked(value) == value
    ensures SpellCount(value) == 0
  {
    CollapseNoWordChars(value);
    NoWordCharsUntouched(Trim(value), SpellingCorrections);
  }

  /** A match count above zero rewrites the box with the corrected trimmed
      text. When every entry that matches maps a caseless word to itself
      (`هذا`, `من`, …), the corrected text is the trimmed one: the box loses
      its surrounding whitespace and nothing else, although the count is
      positive. */
  lemma SpellCheckWritesTrimmed(value: string)
    requires SpellCount(value) > 0
    ensures SpellChecked(value) == ApplyAll(Trim(value), SpellingCorrections)
    ensures OnlyIdentitiesMatch(Trim(value), SpellingCorrections) ==> SpellChecked(value) == Trim(value)
  {
    if OnlyIdentitiesMatch(Trim(value), SpellingCorrections) {
      IdentityMatchesNoChange(Trim(value), SpellingCorrections);
    }
  }

  // ---------------------------------------------------------------------
  // Speech recognition results

  /** One recognition alternative. Confidences are taken as given numbers;
      `confidence || 0` only changes a missing or NaN confidence, which this
      model does not represent. */
  datatype Alternative = Alternative(transcript: string, confidence: real)

  /** The alternatives of one result: the browser always supplies at least one. */
  type Alternatives = alts: seq<Alternative> | |alts| >= 1 witness [Alternative([], 0.0)]

  /** One entry of `event.results`. */
  datatype RecognitionResult = RecognitionResult(alternatives: Alternatives, isFinal: bool)

  /** The index of the alternative the inner loop keeps: a highest confidence,
      the earliest one among equals because the comparison is strict. */
  function BestIndex(alts: seq<Alternative>): (r: nat)
    requires |alts| >= 1
    ensures r < |alts|
    ensures forall j :: 0 <= j < |alts| ==> alts[j].confidence <= alts[r].confidence
    ensures forall j :: 0 <= j < r ==> alts[j].confidence < alts[r].confidence
  {
    if |alts| == 1 then 0
    else
      var b := BestIndex(alts[..|alts| - 1]);
      assert forall j :: 0 <= j < |alts| - 1 ==> alts[..|alts| - 1][j] == alts[j];
      if alts[|alts| - 1].confidence > alts[b].confidence then |alts| - 1 else b
  }

  /** The inner `for` loop over the alternatives of one result. */
  method ChooseAlternative(alts: seq<Alternative>) returns (best: nat)
    requires |alts| >= 1
    ensures best == BestIndex(alts)
  {
    best := 0;
    var bestConfidence := alts[0].confidence;
    var j := 1;
    while j < |alts|
      invariant 1 <= j <= |alts|
      invariant best == BestIndex(alts[..j])
      invariant bestConfidence == alts[best].confidence
    {
      assert alts[..j + 1][..j] == alts[..j];
      if alts[j].confidence > bestConfidence {
        best := j;
        bestConfidence := alts[j].confidence;
      }
      j := j + 1;
    }
    assert alts[..j] == alts;
  }

  /** The cleaned transcript of the best alternative of one result. */
  function BestTranscript(result: RecognitionResult): string {
    CleanedTranscript(result.alternatives[BestIndex(result.alternatives)].transcript)
  }

  /** The text one result contributes and whether it counts as final. */
  datatype Contribution = Contribution(text: string, isFinal: bool)

  /** The contributions of the results, in event order. */
  function Contributions(results: seq<RecognitionResult>): (parts: seq<Contribution>)
    ensures |parts| == |results|
    ensures forall i :: 0 <= i < |results| ==>
      parts[i] == Contribution(BestTranscript(results[i]), results[i].isFinal)
  {
    seq(|results|, i requires 0 <= i < |results| =>
      Contribution(BestTranscript(results[i]), results[i].isFinal))
  }

  /** The texts of the final contributions, concatenated in order. */
  function FinalText(parts: seq<Contribution>): string {
    if parts == [] then []
    else
      var last := parts[|parts| - 1];
      FinalText(parts[..|parts| - 1]) + (if last.isFinal then last.text else [])
  }

  /** The texts of the interim contributions, concatenated in order. */
  function InterimText(parts: seq<Contribution>): string {
    if parts == [] then []
    else
      var last := parts[|parts| - 1];
      InterimText(parts[..|parts| - 1]) + (if last.isFinal then [] else last.text)
  }

  /** The outer loop of `onresult`, from `event.resultIndex` to the end. */
  method AssembleTranscript(results: seq<RecognitionResult>, resultIndex: nat)
    returns (finalTranscript: string, interimTranscript: string)
    ensures resultIndex <= |results| ==>
      finalTranscript == FinalText(Contributions(results[resultIndex..]))
      && interimTranscript == InterimText(Contributions(results[resultIndex..]))
    ensures resultIndex > |results| ==> finalTranscript == [] && interimTranscript == []
  {
    finalTranscript, interimTranscript := [], [];
    if resultIndex > |results| {
      return;
    }
    var i := resultIndex;
    while i < |results|
      invariant resultIndex <= i <= |results|
      invariant finalTranscript == FinalText(Contributions(results[resultIndex..i]))
      invariant interimTranscript == InterimText(Contributions(results[resultIndex..i]))
    {
      var best := ChooseAlternative(results[i].alternatives);
      var bestTranscript := CleanTranscript(results[i].alternatives[best].transcript);
      AssemblyStep(results, resultIndex, i);
      if results[i].isFinal {
        finalTranscript := finalTranscript + bestTranscript;
      } else {
        interimTranscript := interimTranscript + bestTranscript;
      }
      i := i + 1;
    }
    assert results[resultIndex..i] == results[resultIndex..];
  }

  /** One more result adds its best transcript to the part its `isFinal`
      flag names. */
  lemma AssemblyStep(results: seq<RecognitionResult>, lo: nat, i: nat)
    requires lo <= i < |results|
    ensures var before, after := Contributions(results[lo..i]), Contributions(results[lo..i + 1]);
      FinalText(after) == FinalText(before) + (if results[i].isFinal then BestTranscript(results[i]) else [])
      && InterimText(after) == InterimText(before) + (if results[i].isFinal then [] else BestTranscript(results[i]))
  {
    var before, after := Contributions(results[lo..i]), Contributions(results[lo..i + 1]);
    var c := after[|after| - 1];
    assert c == Contribution(BestTranscript(results[i]), results[i].isFinal) by {
      assert results[lo..i + 1][i - lo] == results[i];
    }
    assert after[..|after| - 1] == before by {
      forall k | 0 <= k < |before| ensures after[k] == before[k] {
        assert results[lo..i + 1][k] == results[lo..i][k];
      }
    }
    TextsSnoc(after);
  }

  /** The last contribution goes to the text its flag names. */
  lemma TextsSnoc(parts: seq<Contribution>)
    requires parts != []
    ensures var c, init := parts[|parts| - 1], parts[..|parts| - 1];
      FinalText(parts) == FinalText(init) + (if c.isFinal then c.text else [])
      && InterimText(parts) == InterimText(init) + (if c.isFinal then [] else c.text)
  {
  }

  /** Splitting the contributions splits the final text: each final result
      contributes in event order. */
  lemma {:induction false} FinalTextDistributes(a: seq<Contribution>, b: seq<Contribution>)
    ensures FinalText(a + b) == FinalText(a) + FinalText(b)
    decreases |b|
  {
    var ab := a + b;
    if b == [] {
      assert ab == a;
    } else {
      var init := b[..|b| - 1];
      FinalTextDistributes(a, init);
      assert ab[..|ab| - 1] == a + init;
      assert ab[|ab| - 1] == b[|b| - 1];
      TextsSnoc(ab);
      TextsSnoc(b);
    }
  }

  /** The same for the interim text. */
  lemma {:induction false} InterimTextDistributes(a: seq<Contribution>, b: seq<Contribution>)
    ensures InterimText(a + b) == InterimText(a) + InterimText(b)
    decreases |b|
  {
    var ab := a + b;
    if b == [] {
      assert ab == a;
    } else {
      var init := b[..|b| - 1];
      InterimTextDistributes(a, init);
      assert ab[..|ab| - 1] == a + init;
      assert ab[|ab| - 1] == b[|b| - 1];
      TextsSnoc(ab);
      TextsSnoc(b);
    }
  }

  /** Every contribution goes to exactly one of the two texts: the text of final
      contributions only is all final, that of interim ones only all interim. */
  lemma {:induction false} ContributionsPartition(parts: seq<Contribution>)
    ensures (forall i :: 0 <= i < |parts| ==> parts[i].isFinal) ==> InterimText(parts) == []
    ensures (forall i :: 0 <= i < |parts| ==> !parts[i].isFinal) ==> FinalText(parts) == []
  {
    if parts != [] {
      ContributionsPartition(parts[..|parts| - 1]);
    }
  }

  /** A single result puts its cleaned best transcript in the part its
      `isFinal` flag names. */
  lemma SingleResult(r: RecognitionResult)
    ensures FinalText(Contributions([r])) == (if r.isFinal then BestTranscript(r) else [])
    ensures InterimText(Contributions([r])) == (if r.isFinal then [] else BestTranscript(r))
  {
    assert Contributions([r])[..0] == [];
  }
}
