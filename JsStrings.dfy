/** String primitives of the browser's JavaScript engine, written out:
    the `\s` and `trim` whitespace set, the `\w` word characters,
    lower-casing (ASCII only), `trim`, `replace(/\s+/g, ' ')`, `includes`,
    `split` on one character and `length` in UTF-16 code units.
    A Dafny `string` is a sequence of Unicode scalar values. */
module JsStrings {

  /** `\s`, and the characters `String.prototype.trim` removes: the
      ECMAScript WhiteSpace and LineTerminator characters. */
  predicate IsWhitespace(c: char) {
    c == '\t' || c == '\n' || c == '\U{000B}' || c == '\U{000C}' || c == '\r' || c == ' '
    || c == '\U{00A0}' || c == '\U{1680}' || ('\U{2000}' <= c <= '\U{200A}')
    || c == '\U{2028}' || c == '\U{2029}' || c == '\U{202F}' || c == '\U{205F}'
    || c == '\U{3000}' || c == '\U{FEFF}'
  }

  /** `\w` without the `u` flag: ASCII letters, digits and underscore. */
  predicate IsWordChar(c: char) {
    ('a' <= c <= 'z') || ('A' <= c <= 'Z') || ('0' <= c <= '9') || c == '_'
  }

  predicate IsAsciiUpper(c: char) { 'A' <= c <= 'Z' }
  predicate IsAsciiLower(c: char) { 'a' <= c <= 'z' }
  predicate IsAsciiDigit(c: char) { '0' <= c <= '9' }

  /** `toLowerCase` restricted to ASCII. */
  function LowerChar(c: char): (r: char)
    ensures IsAsciiUpper(c) ==> r as int == c as int + 32
    ensures !IsAsciiUpper(c) ==> r == c
  {
    if IsAsciiUpper(c) then (c as int + 32) as char else c
  }

  function Lower(s: string): (r: string)
    ensures |r| == |s|
    ensures forall k :: 0 <= k < |s| ==> r[k] == LowerChar(s[k])
  {
    seq(|s|, k requires 0 <= k < |s| => LowerChar(s[k]))
  }

  /** A string that `toLowerCase` leaves as it is. */
  predicate IsLowered(s: string) {
    forall k :: 0 <= k < |s| ==> LowerChar(s[k]) == s[k]
  }

  /** No `\w` character. */
  predicate NoWordChars(s: string) {
    forall k :: 0 <= k < |s| ==> !IsWordChar(s[k])
  }

  predicate NoWhitespace(s: string) {
    forall k :: 0 <= k < |s| ==> !IsWhitespace(s[k])
  }

  /** No two whitespace characters next to each other. */
  predicate NoAdjacentWhitespace(s: string) {
    forall k :: 0 <= k < |s| - 1 ==> !(IsWhitespace(s[k]) && IsWhitespace(s[k + 1]))
  }

  /** Neither begins nor ends with whitespace. */
  predicate NoEdgeWhitespace(s: string) {
    s == [] || (!IsWhitespace(s[0]) && !IsWhitespace(s[|s| - 1]))
  }

  /** The shape `trim().replace(/\s+/g, ' ')` produces. */
  predicate Normalized(s: string) {
    NoEdgeWhitespace(s) && NoAdjacentWhitespace(s)
  }

  /** What remains of `s` once every whitespace character is dropped. */
  function NonWhitespace(s: string): string {
    if s == [] then []
    else (if IsWhitespace(s[0]) then [] else [s[0]]) + NonWhitespace(s[1..])
  }

  /** Drops leading whitespace. */
  function TrimStart(s: string): (r: string)
    ensures |r| <= |s| && r == s[|s| - |r|..]
    ensures r == [] || !IsWhitespace(r[0])
    ensures forall k :: 0 <= k < |s| - |r| ==> IsWhitespace(s[k])
  {
    if s != [] && IsWhitespace(s[0]) then TrimStart(s[1..]) else s
  }

  /** Drops trailing whitespace. */
  function TrimEnd(s: string): (r: string)
    ensures |r| <= |s| && r == s[..|r|]
    ensures r == [] || !IsWhitespace(r[|r| - 1])
    ensures forall k :: |r| <= k < |s| ==> IsWhitespace(s[k])
  {
    if s != [] && IsWhitespace(s[|s| - 1]) then TrimEnd(s[..|s| - 1]) else s
  }

  /** `String.prototype.trim`: the slice of `s` between the whitespace that
      begins it and the whitespace that ends it. */
  function Trim(s: string): string {
    TrimEnd(TrimStart(s))
  }

  /** `trim` gives the slice of `s` between its leading and trailing
      whitespace, and that slice neither begins nor ends with whitespace. */
  lemma TrimShape(s: string)
    ensures NoEdgeWhitespace(Trim(s))
    ensures exists a, b :: (0 <= a <= b <= |s| && Trim(s) == s[a..b]
      && (forall k :: 0 <= k < a ==> IsWhitespace(s[k]))
      && (forall k :: b <= k < |s| ==> IsWhitespace(s[k])))
  {
    var t := TrimStart(s);
    var a := |s| - |t|;
    TrimEdges(s);
    TrimTail(s);
    var b := a + |Trim(s)|;
    assert 0 <= a <= b <= |s| && Trim(s) == s[a..b];
  }

  lemma TrimEdges(s: string)
    ensures NoEdgeWhitespace(Trim(s))
  {
    var t := TrimStart(s);
    var r := TrimEnd(t);
    if r != [] {
      assert r[0] == t[0];
    }
  }

  /** What `trim` drops at the back is whitespace. */
  lemma TrimTail(s: string)
    ensures var t := TrimStart(s); var a := |s| - |t|;
      a + |Trim(s)| <= |s| && Trim(s) == s[a..a + |Trim(s)|]
      && forall k :: a + |Trim(s)| <= k < |s| ==> IsWhitespace(s[k])
  {
    var t := TrimStart(s);
    var r := TrimEnd(t);
    var a := |s| - |t|;
    assert r == t[..|r|] && t == s[a..];
    WhitespaceTailShift(s, a, |r|);
  }

  lemma WhitespaceTailShift(s: string, a: nat, m: nat)
    requires a + m <= |s|
    requires forall k :: m <= k < |s| - a ==> IsWhitespace(s[a..][k])
    ensures forall k :: a + m <= k < |s| ==> IsWhitespace(s[k])
  {
    forall k | a + m <= k < |s| ensures IsWhitespace(s[k]) {
      assert s[k] == s[a..][k - a];
    }
  }

  function CollapseWhitespace(s: string): string
    decreases |s|
  {
    if s == [] then []
    else if IsWhitespace(s[0]) then
      assert TrimStart(s) != s;
      [' '] + CollapseWhitespace(TrimStart(s))
    else [s[0]] + CollapseWhitespace(s[1..])
  }

  /** `t` occurs in `s` starting at offset `i`. */
  predicate OccursAt(s: string, t: string, i: int) {
    0 <= i <= |s| - |t| && s[i..i + |t|] == t
  }

  /** `s.includes(t)`. */
  predicate Contains(s: string, t: string)
    decreases |s|
  {
    t <= s || (s != [] && Contains(s[1..], t))
  }

  /** `s.split(sep)` for a one-character separator. */
  function Split(s: string, sep: char): (r: seq<string>)
    ensures |r| >= 1
    decreases |s|
  {
    if s == [] then [[]]
    else
      var rest := Split(s[1..], sep);
      if s[0] == sep then [[]] + rest else [[s[0]] + rest[0]] + rest[1..]
  }

  /** Joins pieces with `sep` between them: `Array.prototype.join`. */
  function Join(pieces: seq<string>, sep: char): string {
    if pieces == [] then []
    else if |pieces| == 1 then pieces[0]
    else pieces[0] + [sep] + Join(pieces[1..], sep)
  }

  /** Number of UTF-16 code units of one character. */
  function CodeUnits(c: char): nat {
    if c as int >= 0x10000 then 2 else 1
  }

  /** `s.length`: JavaScript counts UTF-16 code units. */
  function JsLength(s: string): nat {
    if s == [] then 0 else CodeUnits(s[0]) + JsLength(s[1..])
  }

  // ---------------------------------------------------------------------
  // Lemmas

  /** `JsLength` lies between the number of characters and twice that, and is
      the number of characters exactly when nothing lies outside the BMP. */
  lemma {:induction false} JsLengthBounds(s: string)
    ensures |s| <= JsLength(s) <= 2 * |s|
    ensures JsLength(s) == |s| <==> forall k :: 0 <= k < |s| ==> s[k] as int < 0x10000
  {
    if s != [] {
      JsLengthBounds(s[1..]);
      assert forall k :: 1 <= k < |s| ==> s[k] == s[1..][k - 1];
    }
  }

  lemma LowerIdempotent(s: string)
    ensures IsLowered(Lower(s))
    ensures Lower(Lower(s)) == Lower(s)
  {
  }

  /** A slice of a lowered string is lowered. */
  lemma LoweredSlice(s: string, a: int, b: int)
    requires IsLowered(s) && 0 <= a <= b <= |s|
    ensures IsLowered(s[a..b]) && Lower(s[a..b]) == s[a..b]
  {
    assert forall k :: 0 <= k < b - a ==> s[a..b][k] == s[a + k];
  }

  /** `Contains` is the usual "occurs at some offset". */
  lemma {:induction false} ContainsAt(s: string, t: string)
    ensures Contains(s, t) <==> exists i :: OccursAt(s, t, i)
    decreases |s|
  {
    OccursAtStart(s, t);
    if s != [] {
      ContainsAt(s[1..], t);
      forall i | OccursAt(s, t, i) && i != 0 ensures OccursAt(s[1..], t, i - 1) {
        OccursShift(s, t, i);
      }
      forall i | OccursAt(s[1..], t, i) ensures OccursAt(s, t, i + 1) {
        OccursShift(s, t, i + 1);
      }
    }
  }

  lemma OccursAtStart(s: string, t: string)
    ensures OccursAt(s, t, 0) <==> t <= s
  {
  }

  /** An occurrence after the first character is one in the rest. */
  lemma OccursShift(s: string, t: string, i: int)
    requires s != [] && i >= 1
    ensures OccursAt(s, t, i) <==> OccursAt(s[1..], t, i - 1)
  {
    if i <= |s| - |t| {
      var u, v := s[i..i + |t|], s[1..][i - 1..i - 1 + |t|];
      assert forall k :: 0 <= k < |t| ==> u[k] == s[i + k] == v[k];
      assert u == v;
    }
  }

  /** A string contains every slice of itself. */
  lemma ContainsSlice(s: string, a: int, b: int)
    requires 0 <= a <= b <= |s|
    ensures Contains(s, s[a..b])
  {
    ContainsAt(s, s[a..b]);
    assert OccursAt(s, s[a..b], a);
  }

  /** `split` and `join` are inverse: joining the pieces gives the string back;
      pieces never contain the separator. */
  lemma {:induction false} SplitJoin(s: string, sep: char)
    ensures Join(Split(s, sep), sep) == s
    ensures forall p :: p in Split(s, sep) ==> sep !in p
  {
    if s != [] {
      var rest := Split(s[1..], sep);
      SplitJoin(s[1..], sep);
      if s[0] == sep {
        assert Split(s, sep) == [[]] + rest;
        assert ([[]] + rest)[1..] == rest;
      } else {
        var r := Split(s, sep);
        assert r == [[s[0]] + rest[0]] + rest[1..];
        if |rest| == 1 {
          assert Join(r, sep) == [s[0]] + rest[0];
        } else {
          assert r[1..] == rest[1..];
          assert Join(rest, sep) == rest[0] + [sep] + Join(rest[1..], sep);
        }
        forall p | p in r ensures sep !in p {
          if p == [s[0]] + rest[0] {
            assert rest[0] in rest;
          } else {
            assert p in rest;
          }
        }
      }
    }
  }

  /** Every piece of a `split` is a slice of the string. */
  lemma {:induction false} SplitPiecesOccur(s: string, sep: char)
    ensures Split(s, sep)[0] <= s
    ensures forall p :: p in Split(s, sep) ==> Contains(s, p)
  {
    if s != [] {
      var rest := Split(s[1..], sep);
      SplitPiecesOccur(s[1..], sep);
      forall p | p in Split(s, sep) ensures Contains(s, p) {
        if p in rest {
          assert Contains(s[1..], p);
        } else if p == [] {
        } else {
          assert p == [s[0]] + rest[0];
        }
      }
    }
  }

  lemma {:induction false} NonWhitespaceSplit(a: string, b: string)
    ensures NonWhitespace(a + b) == NonWhitespace(a) + NonWhitespace(b)
  {
    if a == [] {
      assert a + b == b;
    } else {
      var head := if IsWhitespace(a[0]) then [] else [a[0]];
      assert (a + b)[0] == a[0];
      assert (a + b)[1..] == a[1..] + b;
      NonWhitespaceSplit(a[1..], b);
      calc {
        NonWhitespace(a + b);
        head + NonWhitespace(a[1..] + b);
        head + (NonWhitespace(a[1..]) + NonWhitespace(b));
        (head + NonWhitespace(a[1..])) + NonWhitespace(b);
      }
    }
  }

  lemma {:induction false} NonWhitespaceOfBlank(s: string)
    requires forall k :: 0 <= k < |s| ==> IsWhitespace(s[k])
    ensures NonWhitespace(s) == []
  {
    if s != [] {
      NonWhitespaceOfBlank(s[1..]);
    }
  }

  /** `replace(/\s+/g, ' ')` is empty exactly when its input is, and starts
      and ends with whitespace exactly where its input does. */
  lemma {:induction false} CollapseWhitespaceEdges(s: string)
    ensures var r := CollapseWhitespace(s);
      && (r == [] <==> s == [])
      && (s != [] ==> (IsWhitespace(r[0]) <==> IsWhitespace(s[0])))
      && (s != [] ==> (IsWhitespace(r[|r| - 1]) <==> IsWhitespace(s[|s| - 1])))
    decreases |s|
  {
    if s != [] {
      var r := CollapseWhitespace(s);
      if IsWhitespace(s[0]) {
        var t := TrimStart(s);
        CollapseWhitespaceEdges(t);
        assert r == [' '] + CollapseWhitespace(t);
        if t != [] {
          assert s[|s| - 1] == t[|t| - 1];
        }
      } else {
        CollapseWhitespaceEdges(s[1..]);
        assert r == [s[0]] + CollapseWhitespace(s[1..]);
      }
    }
  }

  /** `replace(/\s+/g, ' ')` leaves no two adjacent whitespace characters and
      only the plain space as whitespace. */
  lemma {:induction false} CollapseWhitespaceRuns(s: string)
    ensures NoAdjacentWhitespace(CollapseWhitespace(s))
    ensures forall k :: 0 <= k < |CollapseWhitespace(s)| && IsWhitespace(CollapseWhitespace(s)[k]) ==>
      CollapseWhitespace(s)[k] == ' '
    decreases |s|
  {
    if s != [] {
      var t := if IsWhitespace(s[0]) then TrimStart(s) else s[1..];
      CollapseWhitespaceRuns(t);
      CollapseWhitespaceEdges(t);
      var x := if IsWhitespace(s[0]) then ' ' else s[0];
      assert CollapseWhitespace(s) == [x] + CollapseWhitespace(t);
      ConsKeepsRuns(x, CollapseWhitespace(t));
    }
  }

  /** Putting one character in front keeps both properties when a whitespace
      character is a plain space followed by something else. */
  lemma ConsKeepsRuns(x: char, rt: string)
    requires NoAdjacentWhitespace(rt)
    requires forall k :: 0 <= k < |rt| && IsWhitespace(rt[k]) ==> rt[k] == ' '
    requires IsWhitespace(x) ==> x == ' ' && (rt == [] || !IsWhitespace(rt[0]))
    ensures NoAdjacentWhitespace([x] + rt)
    ensures forall k :: 0 <= k < |[x] + rt| && IsWhitespace(([x] + rt)[k]) ==> ([x] + rt)[k] == ' '
  {
    var r := [x] + rt;
    assert forall k :: 0 <= k < |rt| ==> r[k + 1] == rt[k];
  }

  /** `replace(/\s+/g, ' ')` keeps every non-whitespace character, in order. */
  lemma {:induction false} CollapseWhitespaceKeepsText(s: string)
    ensures NonWhitespace(CollapseWhitespace(s)) == NonWhitespace(s)
    decreases |s|
  {
    if s != [] {
      var r := CollapseWhitespace(s);
      if IsWhitespace(s[0]) {
        var t := TrimStart(s);
        CollapseWhitespaceKeepsText(t);
        assert r == [' '] + CollapseWhitespace(t);
        assert s == s[..|s| - |t|] + t;
        NonWhitespaceSplit(s[..|s| - |t|], t);
        NonWhitespaceOfBlank(s[..|s| - |t|]);
        NonWhitespaceSplit([' '], CollapseWhitespace(t));
      } else {
        CollapseWhitespaceKeepsText(s[1..]);
        assert r == [s[0]] + CollapseWhitespace(s[1..]);
        NonWhitespaceSplit([s[0]], CollapseWhitespace(s[1..]));
        NonWhitespaceSplit([s[0]], s[1..]);
        assert s == [s[0]] + s[1..];
      }
    }
  }

  /** `trim().replace(/\s+/g, ' ')` is `Normalized`. */
  lemma TrimCollapseNormalized(s: string)
    ensures Normalized(CollapseWhitespace(Trim(s)))
  {
    CollapseWhitespaceEdges(Trim(s));
    CollapseWhitespaceRuns(Trim(s));
  }

  /** A text trims to nothing exactly when all of it is whitespace. */
  lemma TrimBlank(s: string)
    ensures Trim(s) == [] <==> forall k :: 0 <= k < |s| ==> IsWhitespace(s[k])
  {
    var t := TrimStart(s);
    if t != [] {
      assert !IsWhitespace(t[0]);
      assert TrimEnd(t) != [];
    }
  }


  /** Trimming a `Normalized` string changes nothing. */
  lemma TrimOfNoEdgeWhitespace(s: string)
    requires NoEdgeWhitespace(s)
    ensures Trim(s) == s
  {
    var r := Trim(s);
    var a, b :| 0 <= a <= b <= |s| && r == s[a..b]
      && (forall k :: 0 <= k < a ==> IsWhitespace(s[k]))
      && (forall k :: b <= k < |s| ==> IsWhitespace(s[k]));
  }

  /** Neither trimming nor collapsing whitespace brings in a `\w` character. */
  lemma CollapseNoWordChars(s: string)
    requires NoWordChars(s)
    ensures NoWordChars(Trim(s))
    ensures NoWordChars(CollapseWhitespace(s))
  {
    var r := Trim(s);
    TrimShape(s);
    var a, b :| 0 <= a <= b <= |s| && r == s[a..b];
    forall k | 0 <= k < |r| ensures !IsWordChar(r[k]) {
      assert r[k] == s[a + k];
    }
    CollapseKeepsNoWordChars(s);
  }

  lemma {:induction false} CollapseKeepsNoWordChars(s: string)
    requires NoWordChars(s)
    ensures NoWordChars(CollapseWhitespace(s))
    decreases |s|
  {
    if s != [] {
      var rest := if IsWhitespace(s[0]) then TrimStart(s) else s[1..];
      assert rest == s[|s| - |rest|..];
      forall k | 0 <= k < |rest| ensures !IsWordChar(rest[k]) {
        assert rest[k] == s[|s| - |rest| + k];
      }
      CollapseKeepsNoWordChars(rest);
    }
  }
}
