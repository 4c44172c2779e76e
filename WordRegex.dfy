/** `text.replace(new RegExp('\\b' + wrong + '\\b', 'gi'), right)`, the
    whole-word, case-insensitive, global replacement that both correction
    dictionaries of the voice translator apply, and the fold of such
    replacements over a correction table in table order.

    The regular expression semantics are written out: `\b` holds between a
    `\w` character (ASCII letter, digit, `_`) and a non-`\w` character, or
    the start or end of the string; the `i` flag compares characters after
    ASCII case folding; a global replace scans left to right and resumes
    after each match. */
module WordRegex {
  import opened JsStrings

  /** A dictionary key: never empty. */
  type Key = w: string | w != [] witness "_"

  /** One entry `wrong: right` of a correction dictionary. */
  datatype Correction = Correction(wrong: Key, right: string)

  /** Characters with a meaning of their own inside a regular expression. */
  predicate IsRegexSyntax(c: char) {
    c in "\\^$.|?*+()[]{}"
  }

  /** Characters on which case-insensitive matching without the `u` flag is
      exactly ASCII case folding: ASCII and the Arabic block, which has no case. */
  predicate FoldsExactly(c: char) {
    c as int < 0x80 || 0x0600 <= c as int <= 0x06FF
  }

  /** A dictionary key that `new RegExp('\\b' + w + '\\b', 'gi')` matches
      literally: non-empty, no whitespace, no regular-expression syntax. */
  predicate PlainWord(w: string) {
    w != [] && forall k :: 0 <= k < |w| ==>
      !IsWhitespace(w[k]) && !IsRegexSyntax(w[k]) && FoldsExactly(w[k])
  }

  /** A replacement that `replace` inserts literally (no `$` patterns) and that
      contains no whitespace. */
  predicate PlainReplacement(c: string) {
    c != [] && forall k :: 0 <= k < |c| ==> !IsWhitespace(c[k]) && c[k] != '$'
  }

  /** Lower-case ASCII letters and Arabic letters and marks. */
  predicate LetterString(w: string) {
    w != [] && forall k :: 0 <= k < |w| ==> IsAsciiLower(w[k]) || 0x0620 <= w[k] as int <= 0x065F
  }

  /** A word of letters is a plain key and a plain replacement. */
  lemma LetterStringIsPlain(w: string)
    requires LetterString(w)
    ensures PlainWord(w) && PlainReplacement(w)
  {
  }

  predicate ValidTable(table: seq<Correction>) {
    forall e :: e in table ==> PlainWord(e.wrong) && PlainReplacement(e.right)
  }

  /** Position `p` holds a `\w` character. */
  predicate WordAt(s: string, p: int) {
    0 <= p < |s| && IsWordChar(s[p])
  }

  /** `\b` holds at position `p`. */
  predicate IsBoundary(s: string, p: int) {
    WordAt(s, p - 1) != WordAt(s, p)
  }

  /** `s[i..i+|w|]` equals `w` under the `i` flag. */
  predicate FoldsTo(s: string, i: int, w: string) {
    0 <= i && i + |w| <= |s| && forall k :: 0 <= k < |w| ==> LowerChar(s[i + k]) == LowerChar(w[k])
  }

  /** `\bw\b` matches at position `i`. */
  predicate MatchesAt(s: string, i: int, w: string) {
    FoldsTo(s, i, w) && IsBoundary(s, i) && IsBoundary(s, i + |w|)
  }

  /** `regex.test(s)` on a fresh regular expression. */
  predicate Occurs(s: string, w: string) {
    exists i | 0 <= i <= |s| :: MatchesAt(s, i, w)
  }

  /** The global replace, from position `i` on. */
  function ReplaceFrom(s: string, i: nat, w: string, c: string): string
    requires i <= |s| && w != []
    decreases |s| - i
  {
    if i == |s| then []
    else if MatchesAt(s, i, w) then c + ReplaceFrom(s, i + |w|, w, c)
    else [s[i]] + ReplaceFrom(s, i + 1, w, c)
  }

  /** `s.replace(new RegExp('\\b' + w + '\\b', 'gi'), c)`. */
  function ReplaceWord(s: string, w: string, c: string): string
    requires w != []
  {
    ReplaceFrom(s, 0, w, c)
  }

  /** Every entry applied in table order, each to the result of the previous. */
  function ApplyAll(s: string, table: seq<Correction>): string
  {
    if table == [] then s
    else
      var e := table[|table| - 1];
      ReplaceWord(ApplyAll(s, table[..|table| - 1]), e.wrong, e.right)
  }

  /** How many entries find a match when their turn comes (the counter of the
      spell checker). */
  function MatchCount(s: string, table: seq<Correction>): nat
  {
    if table == [] then 0
    else
      var init := table[..|table| - 1];
      MatchCount(s, init) + (if Occurs(ApplyAll(s, init), table[|table| - 1].wrong) then 1 else 0)
  }

  // ---------------------------------------------------------------------
  // Lemmas about one replacement

  /** With no match from `i` on, the scan copies the rest of the string. */
  lemma {:induction false} ReplaceFromNoMatch(s: string, i: nat, w: string, c: string)
    requires i <= |s| && w != []
    requires forall j :: i <= j < |s| ==> !MatchesAt(s, j, w)
    ensures ReplaceFrom(s, i, w, c) == s[i..]
    decreases |s| - i
  {
    if i < |s| {
      ReplaceFromNoMatch(s, i + 1, w, c);
      assert s[i..] == [s[i]] + s[i + 1..];
    }
  }

  /** When the word does not occur, the text is unchanged. */
  lemma NoOccurrenceUnchanged(s: string, w: string, c: string)
    requires w != [] && !Occurs(s, w)
    ensures ReplaceWord(s, w, c) == s
  {
    ReplaceFromNoMatch(s, 0, w, c);
  }

  /** The text is changed only if the word occurs. */
  lemma ChangedOnlyIfOccurs(s: string, w: string, c: string)
    requires w != [] && ReplaceWord(s, w, c) != s
    ensures Occurs(s, w)
  {
    if !Occurs(s, w) {
      NoOccurrenceUnchanged(s, w, c);
    }
  }

  /** A word that begins (ends) with a non-`\w` character, an Arabic one for
      instance, matches only right after (before) a `\w` character. */
  lemma MatchNeedsWordNeighbours(s: string, i: int, w: string)
    requires w != [] && MatchesAt(s, i, w)
    ensures !IsWordChar(w[0]) ==> i > 0 && IsWordChar(s[i - 1])
    ensures !IsWordChar(w[|w| - 1]) ==> i + |w| < |s| && IsWordChar(s[i + |w|])
  {
    assert LowerChar(s[i]) == LowerChar(w[0]);
    assert LowerChar(s[i + |w| - 1]) == LowerChar(w[|w| - 1]);
  }

  /** A text without any `\w` character is matched by no word at all: neither
      an ASCII word (its letters would be `\w`) nor any other (`\b` holds
      nowhere in the text). */
  lemma NoWordCharsNoMatch(s: string, w: string)
    requires w != [] && NoWordChars(s)
    ensures !Occurs(s, w)
  {
    forall i | 0 <= i <= |s| ensures !MatchesAt(s, i, w) {
      if FoldsTo(s, i, w) {
        assert LowerChar(s[i]) == LowerChar(w[0]);
      }
    }
  }

  /** A text that is the word itself, up to ASCII case, is replaced whole when
      the word begins and ends with `\w` characters. */
  lemma WholeTextReplaced(s: string, w: string, c: string)
    requires w != [] && IsWordChar(w[0]) && IsWordChar(w[|w| - 1])
    requires |s| == |w| && FoldsTo(s, 0, w)
    ensures ReplaceWord(s, w, c) == c
  {
    assert LowerChar(s[0]) == LowerChar(w[0]);
    assert LowerChar(s[|s| - 1]) == LowerChar(w[|w| - 1]);
    assert MatchesAt(s, 0, w);
    assert ReplaceFrom(s, |s|, w, c) == [];
    assert ReplaceWord(s, w, c) == c + [];
  }

  lemma FoldKeepsNonWhitespace(a: char, b: char)
    requires LowerChar(a) == LowerChar(b) && !IsWhitespace(b)
    ensures !IsWhitespace(a)
  {
  }

  /** One global replace, from position `i` on, is empty exactly at the end and
      has whitespace at its front and back exactly where the text has it. */
  lemma ReplaceFromEdges(s: string, i: nat, w: string, c: string)
    requires i <= |s| && PlainWord(w) && PlainReplacement(c)
    ensures var r := ReplaceFrom(s, i, w, c);
      && (r == [] <==> i == |s|)
      && (i < |s| ==> (IsWhitespace(r[0]) <==> IsWhitespace(s[i])))
      && (i < |s| ==> (IsWhitespace(r[|r| - 1]) <==> IsWhitespace(s[|s| - 1])))
  {
    ReplaceFromFront(s, i, w, c);
    ReplaceFromBack(s, i, w, c);
  }

  lemma ReplaceFromFront(s: string, i: nat, w: string, c: string)
    requires i <= |s| && PlainWord(w) && PlainReplacement(c)
    ensures var r := ReplaceFrom(s, i, w, c);
      && (r == [] <==> i == |s|)
      && (i < |s| ==> (IsWhitespace(r[0]) <==> IsWhitespace(s[i])))
  {
    if i < |s| {
      var r := ReplaceFrom(s, i, w, c);
      if MatchesAt(s, i, w) {
        assert r == c + ReplaceFrom(s, i + |w|, w, c);
        FoldKeepsNonWhitespace(s[i], w[0]);
      } else {
        assert r == [s[i]] + ReplaceFrom(s, i + 1, w, c);
      }
    }
  }

  lemma {:induction false} ReplaceFromBack(s: string, i: nat, w: string, c: string)
    requires i <= |s| && PlainWord(w) && PlainReplacement(c)
    ensures BackKept(s, i, w, c)
    decreases |s| - i
  {
    if i < |s| {
      if MatchesAt(s, i, w) {
        if i + |w| < |s| { ReplaceFromBack(s, i + |w|, w, c); }
        BackAfterMatch(s, i, w, c);
      } else {
        if i + 1 < |s| { ReplaceFromBack(s, i + 1, w, c); }
        BackAfterCopy(s, i, w, c);
      }
    }
  }

  /** From position `i` on, the replace ends in whitespace exactly when the text
      does. */
  predicate BackKept(s: string, i: nat, w: string, c: string)
    requires i <= |s| && w != []
  {
    var r := ReplaceFrom(s, i, w, c);
    i < |s| ==> r != [] && (IsWhitespace(r[|r| - 1]) <==> IsWhitespace(s[|s| - 1]))
  }

  lemma BackAfterMatch(s: string, i: nat, w: string, c: string)
    requires i < |s| && PlainWord(w) && PlainReplacement(c) && MatchesAt(s, i, w)
    requires BackKept(s, i + |w|, w, c)
    ensures BackKept(s, i, w, c)
  {
    var j := i + |w|;
    var r, rest := ReplaceFrom(s, i, w, c), ReplaceFrom(s, j, w, c);
    assert r == c + rest;
    if j < |s| {
      assert r[|r| - 1] == rest[|rest| - 1];
    } else {
      assert r == c && !IsWhitespace(c[|c| - 1]);
      assert LowerChar(s[i + (|w| - 1)]) == LowerChar(w[|w| - 1]);
      FoldKeepsNonWhitespace(s[j - 1], w[|w| - 1]);
    }
  }

  lemma BackAfterCopy(s: string, i: nat, w: string, c: string)
    requires i < |s| && PlainWord(w) && PlainReplacement(c) && !MatchesAt(s, i, w)
    requires BackKept(s, i + 1, w, c)
    ensures BackKept(s, i, w, c)
  {
    var r, rest := ReplaceFrom(s, i, w, c), ReplaceFrom(s, i + 1, w, c);
    assert r == [s[i]] + rest;
    if i + 1 < |s| {
      assert r[|r| - 1] == rest[|rest| - 1];
    } else {
      assert r == [s[i]];
    }
  }

  lemma NoAdjacentSuffix(t: string, d: nat)
    requires NoAdjacentWhitespace(t) && d <= |t|
    ensures NoAdjacentWhitespace(t[d..])
  {
    assert forall k :: 0 <= k < |t| - d ==> t[d..][k] == t[d + k];
  }

  /** One global replace creates no pair of adjacent whitespace characters. */
  lemma {:induction false} ReplaceFromNoAdjacent(s: string, i: nat, w: string, c: string)
    requires i <= |s| && PlainWord(w) && PlainReplacement(c)
    requires NoAdjacentWhitespace(s[i..])
    ensures NoAdjacentWhitespace(ReplaceFrom(s, i, w, c))
    decreases |s| - i
  {
    if i < |s| {
      var r := ReplaceFrom(s, i, w, c);
      if MatchesAt(s, i, w) {
        var j := i + |w|;
        var rest := ReplaceFrom(s, j, w, c);
        assert s[j..] == s[i..][|w|..];
        NoAdjacentSuffix(s[i..], |w|);
        ReplaceFromNoAdjacent(s, j, w, c);
        assert r == c + rest;
        forall k | 0 <= k < |r| - 1 ensures !(IsWhitespace(r[k]) && IsWhitespace(r[k + 1])) {
          if k + 1 < |c| {
            assert r[k] == c[k];
          } else if k + 1 == |c| {
            assert r[k] == c[k];
          } else {
            assert r[k] == rest[k - |c|] && r[k + 1] == rest[k - |c| + 1];
          }
        }
      } else {
        var rest := ReplaceFrom(s, i + 1, w, c);
        assert s[i + 1..] == s[i..][1..];
        NoAdjacentSuffix(s[i..], 1);
        ReplaceFromNoAdjacent(s, i + 1, w, c);
        ReplaceFromEdges(s, i + 1, w, c);
        assert r == [s[i]] + rest;
        if i + 1 < |s| {
          assert s[i..][0] == s[i] && s[i..][1] == s[i + 1];
        }
        forall k | 0 <= k < |r| - 1 ensures !(IsWhitespace(r[k]) && IsWhitespace(r[k + 1])) {
          if k > 0 {
            assert r[k] == rest[k - 1] && r[k + 1] == rest[k];
          }
        }
      }
    }
  }

  /** One replacement keeps a text `Normalized`. */
  lemma ReplaceWordNormalized(s: string, w: string, c: string)
    requires Normalized(s) && PlainWord(w) && PlainReplacement(c)
    ensures Normalized(ReplaceWord(s, w, c))
  {
    assert s[0..] == s;
    ReplaceFromEdges(s, 0, w, c);
    ReplaceFromNoAdjacent(s, 0, w, c);
  }

  // ---------------------------------------------------------------------
  // Lemmas about the fold

  /** Applying a valid table keeps a text `Normalized`. */
  lemma {:induction false} ApplyAllNormalized(s: string, table: seq<Correction>)
    requires ValidTable(table) && Normalized(s)
    ensures Normalized(ApplyAll(s, table))
  {
    if table != [] {
      var init := table[..|table| - 1];
      assert forall e :: e in init ==> e in table;
      ApplyAllNormalized(s, init);
      var e := table[|table| - 1];
      assert e in table;
      ReplaceWordNormalized(ApplyAll(s, init), e.wrong, e.right);
    }
  }

  /** When no entry matches at its turn, the fold leaves the text unchanged. */
  lemma {:induction false} NoMatchesNoChange(s: string, table: seq<Correction>)
    requires MatchCount(s, table) == 0
    ensures ApplyAll(s, table) == s
  {
    if table != [] {
      var init := table[..|table| - 1];
      assert forall e :: e in init ==> e in table;
      NoMatchesNoChange(s, init);
      var e := table[|table| - 1];
      assert e in table;
      NoOccurrenceUnchanged(s, e.wrong, e.right);
    }
  }

  /** A key without ASCII letters, such as an Arabic word: the `i` flag then
      matches only the key itself. */
  predicate Caseless(w: string) {
    forall k :: 0 <= k < |w| ==> !IsAsciiUpper(w[k]) && !IsAsciiLower(w[k])
  }

  /** What a caseless key matches is the key itself. */
  lemma CaselessMatchIsKey(s: string, i: int, w: string)
    requires Caseless(w) && FoldsTo(s, i, w)
    ensures s[i..i + |w|] == w
  {
    forall k | 0 <= k < |w| ensures s[i + k] == w[k] {
      assert LowerChar(s[i + k]) == LowerChar(w[k]);
    }
  }

  /** At a match of a caseless key, putting the key back gives the text from
      the match on, once the rest is copied. */
  lemma ReplaceSelfAtMatch(s: string, i: nat, w: string)
    requires i < |s| && w != [] && Caseless(w) && MatchesAt(s, i, w)
    requires ReplaceFrom(s, i + |w|, w, w) == s[i + |w|..]
    ensures ReplaceFrom(s, i, w, w) == s[i..]
  {
    CaselessMatchIsKey(s, i, w);
    assert s[i..] == s[i..i + |w|] + s[i + |w|..];
  }

  /** Replacing a caseless key by itself, from position `i` on, copies the
      rest of the text. */
  lemma {:induction false} ReplaceFromSelf(s: string, i: nat, w: string)
    requires i <= |s| && w != [] && Caseless(w)
    ensures ReplaceFrom(s, i, w, w) == s[i..]
    decreases |s| - i
  {
    if i < |s| {
      if MatchesAt(s, i, w) {
        ReplaceFromSelf(s, i + |w|, w);
        ReplaceSelfAtMatch(s, i, w);
      } else {
        ReplaceFromSelf(s, i + 1, w);
        assert s[i..] == [s[i]] + s[i + 1..];
      }
    }
  }

  /** Every entry that matches the text replaces a caseless key by itself. */
  predicate OnlyIdentitiesMatch(s: string, table: seq<Correction>) {
    forall e :: e in table && Occurs(s, e.wrong) ==> e.right == e.wrong && Caseless(e.wrong)
  }

  /** When only identity entries match, the fold leaves the text unchanged,
      however many entries match. */
  lemma {:induction false} IdentityMatchesNoChange(s: string, table: seq<Correction>)
    requires OnlyIdentitiesMatch(s, table)
    ensures ApplyAll(s, table) == s
  {
    if table != [] {
      var init := table[..|table| - 1];
      assert forall e :: e in init ==> e in table;
      IdentityMatchesNoChange(s, init);
      var e := table[|table| - 1];
      assert e in table;
      if Occurs(s, e.wrong) {
        ReplaceFromSelf(s, 0, e.wrong);
      } else {
        NoOccurrenceUnchanged(s, e.wrong, e.right);
      }
    }
  }

  /** A text without any `\w` character goes through every table unchanged,
      and no entry matches. */
  lemma {:induction false} NoWordCharsUntouched(s: string, table: seq<Correction>)
    requires NoWordChars(s)
    ensures ApplyAll(s, table) == s
    ensures MatchCount(s, table) == 0
  {
    if table != [] {
      var init := table[..|table| - 1];
      assert forall e :: e in init ==> e in table;
      NoWordCharsUntouched(s, init);
      var e := table[|table| - 1];
      assert e in table;
      NoWordCharsNoMatch(s, e.wrong);
      NoOccurrenceUnchanged(s, e.wrong, e.right);
    }
  }

  /** Extending the table by one entry extends the fold by one replacement:
      the step a loop over the table takes. */
  lemma ApplyAllStep(s: string, table: seq<Correction>, i: nat)
    requires i < |table|
    ensures ApplyAll(s, table[..i + 1]) == ReplaceWord(ApplyAll(s, table[..i]), table[i].wrong, table[i].right)
    ensures MatchCount(s, table[..i + 1]) ==
      MatchCount(s, table[..i]) + (if Occurs(ApplyAll(s, table[..i]), table[i].wrong) then 1 else 0)
  {
    assert table[..i + 1][..i] == table[..i];
    assert table[..i + 1][i] == table[i];
  }
}
