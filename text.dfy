/** String helpers shared by the assistant model: the JavaScript notions of
    whitespace, line terminators, digits and word characters, ASCII case
    folding, substring search and `String.prototype.trim`. */
module Text {

  datatype Option<T> = None | Some(value: T)

  /** Characters the regular-expression dot refuses to match. */
  predicate IsLineTerminator(c: char) {
    c == '\n' || c == '\r' || c == '\U{2028}' || c == '\U{2029}'
  }

  /** JavaScript WhiteSpace and LineTerminator: the class `\s` and what `trim` removes. */
  predicate IsSpace(c: char) {
    || IsLineTerminator(c)
    || c == '\t' || c == '\U{000B}' || c == '\U{000C}' || c == ' '
    || c == '\U{00A0}' || c == '\U{1680}' || ('\U{2000}' <= c <= '\U{200A}')
    || c == '\U{202F}' || c == '\U{205F}' || c == '\U{3000}' || c == '\U{FEFF}'
  }

  predicate IsDigit(c: char) { '0' <= c <= '9' }

  predicate IsAsciiLetter(c: char) { 'a' <= c <= 'z' || 'A' <= c <= 'Z' }

  /** The class `\w`. */
  predicate IsWordChar(c: char) { IsAsciiLetter(c) || IsDigit(c) || c == '_' }

  predicate IsQuote(c: char) { c == '"' || c == '\'' }

  function Lower(c: char): (r: char)
    ensures IsAsciiLetter(c) ==> 'a' <= r <= 'z'
    ensures !('A' <= c <= 'Z') ==> r == c
  {
    if 'A' <= c <= 'Z' then (c as int + 32) as char else c
  }

  /** ASCII lower-casing of a whole string. */
  function LowerStr(s: string): (r: string)
    ensures |r| == |s|
    ensures forall i :: 0 <= i < |s| ==> r[i] == Lower(s[i])
  {
    if s == [] then [] else [Lower(s[0])] + LowerStr(s[1..])
  }

  /** Every character of `t` occurs in `s`. */
  ghost predicate Within(t: string, s: string) {
    forall c :: c in t ==> c in s
  }

  lemma {:induction false} WithinSlice(s: string, a: nat, b: nat)
    requires a <= b <= |s|
    ensures Within(s[a..b], s)
  {
    forall c | c in s[a..b] ensures c in s {
      var k :| a <= k < b && s[k] == c;
    }
  }

  lemma {:induction false} WithinTrans(t: string, u: string, s: string)
    requires Within(t, u) && Within(u, s)
    ensures Within(t, s)
  {}

  // ---------------------------------------------------------------- search

  /** `w` occurs in `s` starting at index `i`. */
  predicate OccursAt(s: string, w: string, i: nat) {
    i + |w| <= |s| && s[i..i + |w|] == w
  }

  /** `w` occurs at `i` when `s` is lower-cased; `w` is given in lower case. */
  predicate OccursAtCi(s: string, w: string, i: nat) {
    i + |w| <= |s| && LowerStr(s[i..i + |w|]) == w
  }

  /** `w` occurs at `i` without case when each character there lowers to `w`'s. */
  lemma {:induction false} OccursAtCiChars(s: string, w: string, i: nat)
    requires i + |w| <= |s| && forall k :: 0 <= k < |w| ==> Lower(s[i + k]) == w[k]
    ensures OccursAtCi(s, w, i)
  {
    var l := LowerStr(s[i..i + |w|]);
    assert forall k :: 0 <= k < |w| ==> l[k] == w[k];
  }

  /** `w` does not occur at `i` without case when one character there lowers to something
      else, or `w` runs past the end. */
  lemma {:induction false} NotOccursAtCi(s: string, w: string, i: nat, k: nat)
    requires k < |w| && (i + |w| <= |s| ==> Lower(s[i + k]) != w[k])
    ensures !OccursAtCi(s, w, i)
  {
    if i + |w| <= |s| {
      var l := LowerStr(s[i..i + |w|]);
      assert l[k] != w[k];
    }
  }

  function ContainsFrom(s: string, w: string, i: nat): (r: bool)
    ensures r <==> exists j :: i <= j && OccursAt(s, w, j)
    decreases |s| - i
  {
    if i + |w| > |s| then false
    else OccursAt(s, w, i) || ContainsFrom(s, w, i + 1)
  }

  /** `String.prototype.includes`. */
  function Contains(s: string, w: string): (r: bool)
    ensures r <==> exists j :: OccursAt(s, w, j)
  {
    ContainsFrom(s, w, 0)
  }

  /** Some word of `ws` is contained in `s` (`Array.prototype.some` over `includes`). */
  function ContainsAny(s: string, ws: seq<string>): (r: bool)
    ensures r <==> exists k :: 0 <= k < |ws| && Contains(s, ws[k])
  {
    if ws == [] then false
    else Contains(s, ws[0]) || ContainsAny(s, ws[1..])
  }

  lemma {:induction false} OccursAtAppend(s: string, t: string, w: string, j: nat)
    requires OccursAt(s, w, j)
    ensures OccursAt(s + t, w, j)
  {
    assert (s + t)[j..j + |w|] == s[j..j + |w|];
  }

  /** `t` is a contiguous piece of `s`. */
  ghost predicate IsSliceOf(t: string, s: string) {
    exists a: nat :: OccursAt(s, t, a)
  }

  lemma {:induction false} PieceIsSlice(s: string, a: nat, b: nat)
    requires a <= b <= |s|
    ensures IsSliceOf(s[a..b], s)
  {
    assert OccursAt(s, s[a..b], a);
  }

  lemma {:induction false} SliceWithin(t: string, s: string)
    requires IsSliceOf(t, s)
    ensures Within(t, s)
  {
    var a: nat :| OccursAt(s, t, a);
    WithinSlice(s, a, a + |t|);
  }

  /** A piece of a piece of `s` is a piece of `s`. */
  lemma {:induction false} SliceTrans(t: string, u: string, s: string)
    requires IsSliceOf(t, u) && IsSliceOf(u, s)
    ensures IsSliceOf(t, s)
  {
    var a: nat :| OccursAt(u, t, a);
    var b: nat :| OccursAt(s, u, b);
    assert forall k :: 0 <= k < |t| ==> t[k] == u[a + k] == s[b + a + k];
    assert s[b + a..b + a + |t|] == t;
    assert OccursAt(s, t, b + a);
  }

  /** The first index at or after `from` holding `c`. */
  function IndexOfFrom(s: string, c: char, from: nat): (r: Option<nat>)
    ensures r.Some? ==> from <= r.value < |s| && s[r.value] == c
    ensures r.Some? ==> forall k :: from <= k < r.value ==> s[k] != c
    ensures r.None? ==> forall k :: from <= k < |s| ==> s[k] != c
    decreases |s| - from
  {
    if from >= |s| then None
    else if s[from] == c then Some(from)
    else IndexOfFrom(s, c, from + 1)
  }

  // ---------------------------------------------------------------- runs

  /** Length of the run of whitespace starting at `i`. */
  function SpaceRun(s: string, i: nat): (n: nat)
    ensures i + n <= |s| || (i > |s| && n == 0)
    ensures i + n < |s| ==> !IsSpace(s[i + n])
    decreases |s| - i
  {
    if i < |s| && IsSpace(s[i]) then 1 + SpaceRun(s, i + 1) else 0
  }

  /** Every character of the run `SpaceRun` measures is whitespace. */
  lemma {:induction false} SpaceRunAll(s: string, i: nat)
    ensures forall k :: i <= k < i + SpaceRun(s, i) ==> IsSpace(s[k])
    decreases |s| - i
  {
    if i < |s| && SpaceRun(s, i) > 0 {
      SpaceRunAll(s, i + 1);
    }
  }

  /** Length of the run of ASCII digits starting at `i`. */
  function DigitRun(s: string, i: nat): (n: nat)
    ensures i + n <= |s| || (i > |s| && n == 0)
    ensures i + n < |s| ==> !IsDigit(s[i + n])
    decreases |s| - i
  {
    if i < |s| && IsDigit(s[i]) then 1 + DigitRun(s, i + 1) else 0
  }

  /** Every character of the run `DigitRun` measures is an ASCII digit. */
  lemma {:induction false} DigitRunAll(s: string, i: nat)
    ensures forall k :: i <= k < i + DigitRun(s, i) ==> IsDigit(s[k])
    decreases |s| - i
  {
    if i < |s| && DigitRun(s, i) > 0 {
      DigitRunAll(s, i + 1);
    }
  }

  /** Length of the run of `\w` characters starting at `i`. */
  function WordRun(s: string, i: nat): (n: nat)
    ensures i + n <= |s| || (i > |s| && n == 0)
    ensures i + n < |s| ==> !IsWordChar(s[i + n])
    decreases |s| - i
  {
    if i < |s| && IsWordChar(s[i]) then 1 + WordRun(s, i + 1) else 0
  }

  /** Every character of the run `WordRun` measures is a `\w` character. */
  lemma {:induction false} WordRunAll(s: string, i: nat)
    ensures forall k :: i <= k < i + WordRun(s, i) ==> IsWordChar(s[k])
    decreases |s| - i
  {
    if i < |s| && WordRun(s, i) > 0 {
      WordRunAll(s, i + 1);
    }
  }

  /** Length of the run of ASCII letters starting at `i`. */
  function LetterRun(s: string, i: nat): (n: nat)
    ensures i + n <= |s| || (i > |s| && n == 0)
    ensures i + n < |s| ==> !IsAsciiLetter(s[i + n])
    decreases |s| - i
  {
    if i < |s| && IsAsciiLetter(s[i]) then 1 + LetterRun(s, i + 1) else 0
  }

  /** Every character of the run `LetterRun` measures is an ASCII letter. */
  lemma {:induction false} LetterRunAll(s: string, i: nat)
    ensures forall k :: i <= k < i + LetterRun(s, i) ==> IsAsciiLetter(s[k])
    decreases |s| - i
  {
    if i < |s| && LetterRun(s, i) > 0 {
      LetterRunAll(s, i + 1);
    }
  }

  /** Length of the run the regular-expression dot can match from `i`. */
  function LineRun(s: string, i: nat): (n: nat)
    ensures i + n <= |s| || (i > |s| && n == 0)
    ensures i + n < |s| ==> IsLineTerminator(s[i + n])
    decreases |s| - i
  {
    if i < |s| && !IsLineTerminator(s[i]) then 1 + LineRun(s, i + 1) else 0
  }

  /** Every character of the run `LineRun` measures is a character the dot matches. */
  lemma {:induction false} LineRunAll(s: string, i: nat)
    ensures forall k :: i <= k < i + LineRun(s, i) ==> !IsLineTerminator(s[k])
    decreases |s| - i
  {
    if i < |s| && LineRun(s, i) > 0 {
      LineRunAll(s, i + 1);
    }
  }

  /** Digits filling `[i, i + n)` and nothing more are a run of exactly `n`. */
  lemma {:induction false} DigitRunExact(s: string, i: nat, n: nat)
    requires i + n <= |s| && forall k :: i <= k < i + n ==> IsDigit(s[k])
    requires i + n == |s| || !IsDigit(s[i + n])
    ensures DigitRun(s, i) == n
    decreases n
  {
    if n > 0 {
      DigitRunExact(s, i + 1, n - 1);
    }
  }

  /** Letters filling `[i, i + n)` and nothing more are a run of exactly `n`. */
  lemma {:induction false} LetterRunExact(s: string, i: nat, n: nat)
    requires i + n <= |s| && forall k :: i <= k < i + n ==> IsAsciiLetter(s[k])
    requires i + n == |s| || !IsAsciiLetter(s[i + n])
    ensures LetterRun(s, i) == n
    decreases n
  {
    if n > 0 {
      LetterRunExact(s, i + 1, n - 1);
    }
  }

  /** `\w` characters filling `[i, i + n)` and nothing more are a run of exactly `n`. */
  lemma {:induction false} WordRunExact(s: string, i: nat, n: nat)
    requires i + n <= |s| && forall k :: i <= k < i + n ==> IsWordChar(s[k])
    requires i + n == |s| || !IsWordChar(s[i + n])
    ensures WordRun(s, i) == n
    decreases n
  {
    if n > 0 {
      WordRunExact(s, i + 1, n - 1);
    }
  }

  /** Without a line terminator from `i` on, the dot can match the rest of `s`. */
  lemma {:induction false} LineRunToEnd(s: string, i: nat)
    requires i <= |s| && forall k :: i <= k < |s| ==> !IsLineTerminator(s[k])
    ensures LineRun(s, i) == |s| - i
    decreases |s| - i
  {
    if i < |s| {
      LineRunToEnd(s, i + 1);
    }
  }

  /** A run of at least `n` digits is seen as such. */
  lemma {:induction false} DigitRunAtLeast(s: string, i: nat, n: nat)
    requires i + n <= |s| && forall k :: i <= k < i + n ==> IsDigit(s[k])
    ensures DigitRun(s, i) >= n
    decreases n
  {
    if n > 0 {
      DigitRunAtLeast(s, i + 1, n - 1);
    }
  }

  lemma {:induction false} LineRunAtLeast(s: string, i: nat, n: nat)
    requires i + n <= |s| && forall k :: i <= k < i + n ==> !IsLineTerminator(s[k])
    ensures LineRun(s, i) >= n
    decreases n
  {
    if n > 0 {
      LineRunAtLeast(s, i + 1, n - 1);
    }
  }

  /** Whitespace filling `[i, i + n)` and nothing more is a run of exactly `n`. */
  lemma {:induction false} SpaceRunExact(s: string, i: nat, n: nat)
    requires i + n <= |s| && forall k :: i <= k < i + n ==> IsSpace(s[k])
    requires i + n == |s| || !IsSpace(s[i + n])
    ensures SpaceRun(s, i) == n
    decreases n
  {
    if n > 0 {
      SpaceRunExact(s, i + 1, n - 1);
    }
  }

  // ---------------------------------------------------------------- trim

  function TrimStart(s: string): (r: string)
    ensures |r| <= |s| && r == s[|s| - |r|..]
    ensures forall k :: 0 <= k < |s| - |r| ==> IsSpace(s[k])
    ensures r != [] ==> !IsSpace(r[0])
  {
    if s != [] && IsSpace(s[0]) then TrimStart(s[1..]) else s
  }

  function TrimEnd(s: string): (r: string)
    ensures |r| <= |s| && r == s[..|r|]
    ensures forall k :: |r| <= k < |s| ==> IsSpace(s[k])
    ensures r != [] ==> !IsSpace(r[|r| - 1])
  {
    if s != [] && IsSpace(s[|s| - 1]) then TrimEnd(s[..|s| - 1]) else s
  }

  /** `String.prototype.trim`. */
  function Trim(s: string): string {
    TrimEnd(TrimStart(s))
  }

  /** A string with no whitespace at either end. */
  predicate IsTrimmed(s: string) {
    s == [] || (!IsSpace(s[0]) && !IsSpace(s[|s| - 1]))
  }

  lemma {:induction false} TrimStartKeep(s: string)
    requires s == [] || !IsSpace(s[0])
    ensures TrimStart(s) == s
  {}

  lemma {:induction false} TrimEndKeep(s: string)
    requires s == [] || !IsSpace(s[|s| - 1])
    ensures TrimEnd(s) == s
  {}

  /** The result of trimming is trimmed, and it is a slice of the input. */
  lemma {:induction false} TrimShape(s: string)
    ensures IsTrimmed(Trim(s))
    ensures exists a, b :: 0 <= a <= b <= |s| && Trim(s) == s[a..b]
  {
    var t := TrimStart(s);
    var r := TrimEnd(t);
    if r != [] {
      assert r[0] == t[0];
    }
    var a := |s| - |t|;
    assert r == s[a..a + |r|];
  }

  lemma {:induction false} TrimWithin(s: string)
    ensures Within(Trim(s), s)
  {
    TrimShape(s);
    var a, b :| 0 <= a <= b <= |s| && Trim(s) == s[a..b];
    WithinSlice(s, a, b);
  }

  lemma {:induction false} TrimSlice(s: string)
    ensures IsSliceOf(Trim(s), s)
  {
    TrimShape(s);
    var a, b :| 0 <= a <= b <= |s| && Trim(s) == s[a..b];
    PieceIsSlice(s, a, b);
  }

  /** Trimming a trimmed string changes nothing. */
  lemma {:induction false} TrimTrimmed(s: string)
    requires IsTrimmed(s)
    ensures Trim(s) == s
  {
    TrimStartKeep(s);
    TrimEndKeep(s);
  }

  lemma {:induction false} TrimIdempotent(s: string)
    ensures Trim(Trim(s)) == Trim(s)
  {
    TrimShape(s);
    TrimTrimmed(Trim(s));
  }

  /** Whitespace appended at the end does not survive trimming. */
  lemma {:induction false} TrimEndSpace(s: string, c: char)
    requires IsSpace(c)
    ensures TrimEnd(s + [c]) == TrimEnd(s)
  {
    assert (s + [c])[..|s + [c]| - 1] == s;
  }

  lemma {:induction false} TrimStartAppend(s: string, t: string)
    requires exists k :: 0 <= k < |s| && !IsSpace(s[k])
    ensures TrimStart(s + t) == TrimStart(s) + t
  {
    if IsSpace(s[0]) {
      assert (s + t)[1..] == s[1..] + t;
      TrimStartAppend(s[1..], t);
    }
  }

  lemma {:induction false} TrimAppendSpace(s: string, c: char)
    requires IsSpace(c)
    ensures Trim(s + [c]) == Trim(s)
  {
    if exists k :: 0 <= k < |s| && !IsSpace(s[k]) {
      TrimStartAppend(s, [c]);
      TrimEndSpace(TrimStart(s), c);
    } else {
      AllSpaceTrimStart(s + [c]);
      AllSpaceTrimStart(s);
    }
  }

  /** Whitespace prepended at the front does not survive trimming. */
  lemma {:induction false} TrimPrependSpace(c: char, s: string)
    requires IsSpace(c)
    ensures Trim([c] + s) == Trim(s)
  {
    assert ([c] + s)[1..] == s;
  }

  lemma {:induction false} AllSpaceTrimStart(s: string)
    requires forall k :: 0 <= k < |s| ==> IsSpace(s[k])
    ensures TrimStart(s) == []
  {}

  /** Splitting off the first element commutes with appending. */
  lemma {:induction false} ConsSplit<T>(t: seq<T>, r: seq<T>)
    requires t != []
    ensures [t[0]] + (t[1..] + r) == t + r
  {
    assert [t[0]] + t[1..] == t;
  }

  lemma {:induction false} SliceSplit<T>(s: seq<T>, i: nat, b: nat)
    requires i <= b <= |s|
    ensures s[i..] == s[i..b] + s[b..]
  {}

  lemma {:induction false} SliceOfSlice<T>(s: seq<T>, a: nat, b: nat, j: nat)
    requires a <= b <= |s| && j <= b - a
    ensures s[a..b][j..] == s[a + j..b]
  {}

  // ---------------------------------------------------------------- numbers

  function DigitValue(c: char): nat
    requires IsDigit(c)
  {
    c as int - '0' as int
  }

  /** The value of a string of decimal digits (`parseInt` on such a string). */
  function DigitsValue(s: string): nat
    requires forall k :: 0 <= k < |s| ==> IsDigit(s[k])
  {
    if s == [] then 0 else DigitsValue(s[..|s| - 1]) * 10 + DigitValue(s[|s| - 1])
  }

  function DigitChar(d: nat): (c: char)
    requires d < 10
    ensures IsDigit(c) && DigitValue(c) == d
  {
    ('0' as int + d) as char
  }

  /** Decimal rendering of a natural number, as template literals print it. */
  function NatToString(n: nat): (r: string)
    ensures |r| >= 1
    ensures forall k :: 0 <= k < |r| ==> IsDigit(r[k])
    ensures DigitsValue(r) == n
  {
    if n < 10 then [DigitChar(n)]
    else
      var r := NatToString(n / 10) + [DigitChar(n % 10)];
      assert r[..|r| - 1] == NatToString(n / 10);
      r
  }

  /** `d` padded with zeros on the left to at least `width` characters. */
  function ZeroPad(d: string, width: nat): (r: string)
    requires forall k :: 0 <= k < |d| ==> IsDigit(d[k])
    ensures |r| == if |d| >= width then |d| else width
    ensures forall k :: 0 <= k < |r| ==> IsDigit(r[k])
    decreases width - |d|
  {
    if |d| >= width then d else ZeroPad(['0'] + d, width)
  }

  /** Decimal rendering padded with zeros to at least `width` digits. */
  function PadNat(n: nat, width: nat): (r: string)
    ensures |r| >= width
    ensures forall k :: 0 <= k < |r| ==> IsDigit(r[k])
  {
    ZeroPad(NatToString(n), width)
  }
}
