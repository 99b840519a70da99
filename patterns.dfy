/** The regular expressions the assistant matches messages against, each modelled as a
    scanner with the JavaScript engine's semantics: the leftmost starting index that
    can match wins, greedy parts take as much as they can and give it back one
    character at a time, lazy parts take as little as they can. Case-insensitive
    patterns compare ASCII letters without case; the dot matches any character but a
    line terminator; `\s` is `Text.IsSpace`. Each pattern has its own function, whose
    contract says where its groups stand in the message and what they are made of. */
module Patterns {
  import opened Text
  import TimeResolver

  datatype Pattern =
    // times of a reminder
    | AtClock          // at (\d{1,2}(?::\d{2})?\s*(?:am|pm)?)
    | ClockMeridiem    // (\d{1,2}(?::\d{2})?\s*(?:am|pm))
    | DayWord          // (tomorrow|today|tonight)
    | OnWeekday        // on (monday|...|sunday)
    // a reminder's task
    | RemindUntilTime  // remind me to (.+?)(?:\s+at|\s+tomorrow|\s+today|\s+on|\s+\d)
    | RemindRest       // remind me to (.+)
    // WhatsApp messages
    | PhoneNumber      // (\+?\d{10,15}), the only pattern that keeps case
    | ContactName      // (?:message|text|whatsapp)\s+([a-zA-Z]+)
    | QuotedMessage    // (?:say|tell|message).*?["'](.+?)["']
    | MessageRest      // message:?\s*(.+)
    // translations
    | TranslateQuoted  // translate\s+["'](.+?)["']\s+to\s+(\w+)
    | TranslateUntilTo // translate\s+(.+?)\s+to\s+(\w+)
    | TranslateToFirst // translate\s+to\s+(\w+):?\s*(.+)
    | TranslateToWord  // the same, with the language word kept whole (see ToFirstAt)
    // calls
    | CallNumber       // call\s+(\+?\d[\d\s-]+)
    | CallName         // call\s+([a-zA-Z][a-zA-Z\s]+?)(?:\s+at|\s+on|$)
    // videos
    | PlayVideoQuoted  // play video\s+["'](.+?)["']
    | PlayVideoRest    // play video\s+(.+)
    | ShowVideoQuoted  // show video\s+["'](.+?)["']
    | ShowVideoRest    // show video\s+(.+)
    // songs
    | PlayKindQuoted   // play\s+(?:song|music)\s+["'](.+?)["']
    | PlayQuoted       // play\s+["'](.+?)["']
    | PlayKindRest     // play\s+(?:song|music)\s+(.+)
    | PlayRest         // play\s+(.+)

  /** The captured groups; `second` is empty for patterns with one group. */
  datatype Groups = Groups(first: string, second: string)

  /** Both groups are contiguous pieces of `s`. */
  ghost predicate GroupSlices(g: Groups, s: string) {
    IsSliceOf(g.first, s) && IsSliceOf(g.second, s)
  }

  lemma {:induction false} SliceGroups(s: string, a: nat, b: nat, c: nat, d: nat)
    requires a <= b <= |s| && c <= d <= |s|
    ensures GroupSlices(Groups(s[a..b], s[c..d]), s)
  {
    PieceIsSlice(s, a, b);
    PieceIsSlice(s, c, d);
  }

  lemma {:induction false} OneGroup(t: string, s: string)
    requires IsSliceOf(t, s)
    ensures GroupSlices(Groups(t, ""), s)
  {
    PieceIsSlice(s, 0, 0);
  }

  lemma {:induction false} GroupSlicesWithin(g: Groups, s: string)
    requires GroupSlices(g, s)
    ensures Within(g.first, s) && Within(g.second, s)
  {
    SliceWithin(g.first, s);
    SliceWithin(g.second, s);
  }

  const DayWords: seq<string> := ["tomorrow", "today", "tonight"]
  const Weekdays: seq<string> :=
    ["monday", "tuesday", "wednesday", "thursday", "friday", "saturday", "sunday"]
  const ContactWords: seq<string> := ["message", "text", "whatsapp"]
  const SayWords: seq<string> := ["say", "tell", "message"]
  const KindWords: seq<string> := ["song", "music"]

  // ------------------------------------------------------------ what groups are made of

  predicate NoLineTerminator(t: string) {
    forall k :: 0 <= k < |t| ==> !IsLineTerminator(t[k])
  }

  /** Whitespace fills `s[i..k]`. */
  predicate SpacesBetween(s: string, i: nat, k: nat) {
    i <= k <= |s| && forall e :: i <= e < k ==> IsSpace(s[e])
  }

  /** `s[t..b]` is what `:?\s*` takes: an optional colon, then whitespace. */
  predicate ColonSpaces(s: string, t: nat, b: nat) {
    t <= b <= |s| && forall e :: t <= e < b ==> IsSpace(s[e]) || (e == t && s[e] == ':')
  }

  /** `t` is what `(.+)` takes at `a`: the rest of the line, at least one character. */
  predicate RestOfLine(s: string, a: nat, t: string) {
    t != [] && OccursAt(s, t, a) && NoLineTerminator(t)
    && (a + |t| == |s| || IsLineTerminator(s[a + |t|]))
  }

  /** `t` is what a final `(\w+)` takes at `a`: the whole word. */
  predicate WholeWord(s: string, a: nat, t: string) {
    t != [] && OccursAt(s, t, a) && (forall k :: 0 <= k < |t| ==> IsWordChar(t[k]))
    && (a + |t| == |s| || !IsWordChar(s[a + |t|]))
  }

  /** `t` is what `([a-zA-Z]+)` takes at `a`: all the letters there. */
  predicate LetterWord(s: string, a: nat, t: string) {
    t != [] && OccursAt(s, t, a) && (forall k :: 0 <= k < |t| ==> IsAsciiLetter(t[k]))
    && (a + |t| == |s| || !IsAsciiLetter(s[a + |t|]))
  }

  /** `t` is what `["'](.+?)["']` captures with its opening quote at `a`: one character
      or more of the line, closed by the first quote after the first character. */
  predicate Quoted(s: string, a: nat, t: string) {
    t != [] && a + |t| + 1 < |s| && IsQuote(s[a]) && OccursAt(s, t, a + 1)
    && IsQuote(s[a + 1 + |t|]) && NoLineTerminator(t)
    && forall k :: 1 <= k < |t| ==> !IsQuote(t[k])
  }

  /** `\+?\d{10,15}`: an optional plus sign and ten to fifteen digits. */
  predicate IsPhoneNumber(t: string) {
    var d := if t != [] && t[0] == '+' then t[1..] else t;
    10 <= |d| <= 15 && forall k :: 0 <= k < |d| ==> IsDigit(d[k])
  }

  /** The class `[\d\s-]`. */
  predicate IsPhoneChar(c: char) { IsDigit(c) || IsSpace(c) || c == '-' }

  /** `\+?\d[\d\s-]+`: an optional plus sign, a digit, then one or more of `[\d\s-]`. */
  predicate IsDialled(t: string) {
    var b := if t != [] && t[0] == '+' then 1 else 0;
    b + 2 <= |t| && IsDigit(t[b]) && forall k :: b < k < |t| ==> IsPhoneChar(t[k])
  }

  /** `\s+to\s+(\w+)` matches at `c`, capturing `lang`. */
  ghost predicate ToLanguage(s: string, c: nat, lang: string) {
    exists p: nat, u: nat :: c < p && SpacesBetween(s, c, p) && OccursAtCi(s, "to", p)
      && p + 2 < u && SpacesBetween(s, p + 2, u) && WholeWord(s, u, lang)
  }

  // ------------------------------------------------------------ building blocks

  /** The index of the first of the lower-case words `ws[k..]` found at `i`. */
  function AltFrom(s: string, ws: seq<string>, i: nat, k: nat): (r: Option<nat>)
    ensures r.Some? ==> k <= r.value < |ws| && OccursAtCi(s, ws[r.value], i)
    ensures r.None? ==> forall e :: k <= e < |ws| ==> !OccursAtCi(s, ws[e], i)
    decreases |ws| - k
  {
    if k >= |ws| then None
    else if OccursAtCi(s, ws[k], i) then Some(k)
    else AltFrom(s, ws, i, k + 1)
  }

  /** The alternation of the words `ws` at `i`. No word of the alternations here is a
      prefix of another, so at most one of them fits. */
  function AltAt(s: string, ws: seq<string>, i: nat): (r: Option<nat>)
    ensures r.Some? ==> r.value < |ws| && OccursAtCi(s, ws[r.value], i)
    ensures r.None? ==> forall e :: 0 <= e < |ws| ==> !OccursAtCi(s, ws[e], i)
  {
    AltFrom(s, ws, i, 0)
  }

  /** Length of the run of `[\d\s-]` starting at `i`. */
  function PhoneCharRun(s: string, i: nat): (n: nat)
    ensures i + n <= |s| || (i > |s| && n == 0)
    ensures forall k :: i <= k < i + n ==> IsPhoneChar(s[k])
    ensures i + n < |s| ==> !IsPhoneChar(s[i + n])
    decreases |s| - i
  {
    if i < |s| && IsPhoneChar(s[i]) then 1 + PhoneCharRun(s, i + 1) else 0
  }

  /** Length of the run of `[a-zA-Z\s]` starting at `i`. */
  function LetterSpaceRun(s: string, i: nat): (n: nat)
    ensures i + n <= |s| || (i > |s| && n == 0)
    ensures forall k :: i <= k < i + n ==> IsAsciiLetter(s[k]) || IsSpace(s[k])
    decreases |s| - i
  {
    if i < |s| && (IsAsciiLetter(s[i]) || IsSpace(s[i])) then 1 + LetterSpaceRun(s, i + 1) else 0
  }

  /** `(.+)` at `a`, when the line goes on there. */
  lemma {:induction false} LineRest(s: string, a: nat)
    requires a < |s| && !IsLineTerminator(s[a])
    ensures RestOfLine(s, a, s[a..a + LineRun(s, a)])
  {
    var t := s[a..a + LineRun(s, a)];
    LineRunAll(s, a);
    assert forall k :: 0 <= k < |t| ==> t[k] == s[a + k];
  }

  /** `\s*(.+)` (`min` 0) or `\s+(.+)` (`min` 1) at `q`, searching from `k` whitespace
      characters downwards: the dot takes the rest of the line after the whitespace it
      was left, and the run gives characters back while the dot has nothing to take. */
  function BackOff(s: string, q: nat, k: nat, min: nat): (r: Option<string>)
    requires q + k <= |s| && min <= k
    ensures r.Some? ==> exists b: nat :: q + min <= b <= q + k && RestOfLine(s, b, r.value)
    ensures r.Some? ==> IsSliceOf(r.value, s)
    decreases k
  {
    if q + k < |s| && !IsLineTerminator(s[q + k]) then
      LineRest(s, q + k);
      PieceIsSlice(s, q + k, q + k + LineRun(s, q + k));
      Some(s[q + k..q + k + LineRun(s, q + k)])
    else if k == min then None
    else BackOff(s, q, k - 1, min)
  }

  /** `\s*(.+)` or `\s+(.+)` at `q`. */
  function SpacedRest(s: string, q: nat, min: nat): (r: Option<string>)
    requires q <= |s|
    ensures r.Some? ==> exists b: nat :: q + min <= b && SpacesBetween(s, q, b) && RestOfLine(s, b, r.value)
    ensures r.Some? ==> IsSliceOf(r.value, s)
  {
    var run := SpaceRun(s, q);
    if run < min then None
    else
      var r := BackOff(s, q, run, min);
      SpaceRunAll(s, q);
      assert forall b: nat :: q <= b <= q + run ==> SpacesBetween(s, q, b);
      r
  }

  /** `:?\s*(.+)` at `t`: with the colon when that leads to a match, without it otherwise. */
  function ColonRest(s: string, t: nat): (r: Option<string>)
    requires t <= |s|
    ensures r.Some? ==> exists b: nat :: ColonSpaces(s, t, b) && RestOfLine(s, b, r.value)
    ensures r.Some? ==> IsSliceOf(r.value, s)
  {
    if t < |s| && s[t] == ':' && SpacedRest(s, t + 1, 0).Some? then
      assert forall b: nat :: SpacesBetween(s, t + 1, b) ==> ColonSpaces(s, t, b);
      SpacedRest(s, t + 1, 0)
    else
      assert forall b: nat :: SpacesBetween(s, t, b) ==> ColonSpaces(s, t, b);
      SpacedRest(s, t, 0)
  }

  /** The first index in `[c, limit)` holding a quote. */
  function FirstQuote(s: string, c: nat, limit: nat): (r: Option<nat>)
    requires limit <= |s|
    ensures r.Some? ==> c <= r.value < limit && IsQuote(s[r.value])
    ensures r.Some? ==> forall e :: c <= e < r.value ==> !IsQuote(s[e])
    ensures r.None? ==> forall e :: c <= e < limit ==> !IsQuote(s[e])
    decreases limit - c
  {
    if c >= limit then None
    else if IsQuote(s[c]) then Some(c)
    else FirstQuote(s, c + 1, limit)
  }

  /** Conversely, a quote after a stretch without one is the first quote. */
  lemma {:induction false} FirstQuoteAt(s: string, c: nat, limit: nat, q: nat)
    requires c <= q < limit <= |s| && IsQuote(s[q]) && forall e :: c <= e < q ==> !IsQuote(s[e])
    ensures FirstQuote(s, c, limit) == Some(q)
    decreases q - c
  {
    if c < q {
      FirstQuoteAt(s, c + 1, limit, q);
    }
  }

  /** A quote at `a` opens a quoted group: a later quote closes it on the same line,
      one character or more on. */
  predicate QuoteOpens(s: string, a: nat) {
    a < |s| && IsQuote(s[a]) && FirstQuote(s, a + 2, a + 1 + LineRun(s, a + 1)).Some?
  }

  /** `["'](.+?)["']` with the opening quote at `a`: the group runs to the first quote
      after at least one character, on the same line. Yields the group and the index of
      the closing quote. */
  function QuotedAt(s: string, a: nat): (r: Option<(string, nat)>)
    requires a < |s|
    ensures r.Some? <==> QuoteOpens(s, a)
  {
    if !QuoteOpens(s, a) then None
    else
      var c := FirstQuote(s, a + 2, a + 1 + LineRun(s, a + 1)).value;
      Some((s[a + 1..c], c))
  }

  /** What `QuotedAt` finds is a quoted group, and the index after it is its closing quote. */
  lemma {:induction false} QuotedAtShape(s: string, a: nat, t: string, c: nat)
    requires a < |s| && QuotedAt(s, a) == Some((t, c))
    ensures Quoted(s, a, t) && c == a + 1 + |t| && t == s[a + 1..c]
  {
    LineRunAll(s, a + 1);
    assert forall k :: 0 <= k < |t| ==> t[k] == s[a + 1 + k];
  }

  /** Every quoted group is found by `QuotedAt`. */
  lemma {:induction false} QuotedFound(s: string, a: nat, t: string)
    requires Quoted(s, a, t)
    ensures QuotedAt(s, a).Some?
  {
    var c := a + 1 + |t|;
    assert forall k :: a + 1 <= k < c ==> s[k] == t[k - a - 1];
    LineRunAtLeast(s, a + 1, |t| + 1);
  }

  /** Where no quoted group is found, there is none. */
  lemma {:induction false} NoEarlierQuote(s: string, q: nat, a: nat)
    requires NoStopIn(OpenQuoteStop, s, q, a)
    ensures forall c: nat, t :: q <= c < a ==> !Quoted(s, c, t)
  {
    forall c: nat, t | Quoted(s, c, t) ensures StopsAt(OpenQuoteStop, s, c) {
      QuotedFound(s, c, t);
    }
  }

  /** `\s+["'](.+?)["']` at `p`: the whitespace run is taken whole, since a quote follows it. */
  function SpacedQuoted(s: string, p: nat): (r: Option<string>)
    requires p <= |s|
    ensures r.Some? ==> exists a: nat :: p < a && SpacesBetween(s, p, a) && Quoted(s, a, r.value)
    ensures r.Some? ==> IsSliceOf(r.value, s)
  {
    var a := p + SpaceRun(s, p);
    if SpaceRun(s, p) == 0 || a >= |s| then None
    else
      match QuotedAt(s, a)
      case None => None
      case Some((g, c)) =>
        QuotedAtShape(s, a, g, c);
        SpaceRunAll(s, p);
        assert SpacesBetween(s, p, a) && Quoted(s, a, g);
        PieceIsSlice(s, a + 1, c);
        Some(g)
  }

  /** `\s+to\s+(\w+)` matches at `c`. */
  predicate ToFollows(s: string, c: nat) {
    var p := c + SpaceRun(s, c);
    SpaceRun(s, c) > 0 && OccursAtCi(s, "to", p) && SpaceRun(s, p + 2) > 0
    && WordRun(s, p + 2 + SpaceRun(s, p + 2)) > 0
  }

  /** Where the word after "to" starts, for `\s+to\s+(\w+)` at `c`. */
  function LanguageStart(s: string, c: nat): nat {
    c + SpaceRun(s, c) + 2 + SpaceRun(s, c + SpaceRun(s, c) + 2)
  }

  /** `\s+to\s+(\w+)` at `c`: the word after "to". */
  function ToWord(s: string, c: nat): (r: Option<string>)
    ensures r.Some? <==> ToFollows(s, c)
  {
    if !ToFollows(s, c) then None
    else
      var u := LanguageStart(s, c);
      Some(s[u..u + WordRun(s, u)])
  }

  /** The word `ToWord` finds is the language `\s+to\s+(\w+)` captures. */
  lemma {:induction false} ToWordFound(s: string, c: nat, w: string)
    requires ToWord(s, c) == Some(w)
    ensures w != [] && ToLanguage(s, c, w) && IsSliceOf(w, s)
  {
    var p := c + SpaceRun(s, c);
    var u := LanguageStart(s, c);
    assert w == s[u..u + WordRun(s, u)];
    SpacesTaken(s, c);
    SpacesTaken(s, p + 2);
    WordTaken(s, u);
    PieceIsSlice(s, u, u + WordRun(s, u));
    assert c < p;
    assert SpacesBetween(s, c, p);
    assert OccursAtCi(s, "to", p);
    assert p + 2 < u;
    assert SpacesBetween(s, p + 2, u);
    assert WholeWord(s, u, w);
    ToLanguageAt(s, c, p, u, w);
  }

  /** Spaces, "to", spaces and a whole word, at the given places, are `\s+to\s+(\w+)`. */
  lemma {:induction false} ToLanguageAt(s: string, c: nat, p: nat, u: nat, lang: string)
    requires c < p && SpacesBetween(s, c, p) && OccursAtCi(s, "to", p)
    requires p + 2 < u && SpacesBetween(s, p + 2, u) && WholeWord(s, u, lang)
    ensures ToLanguage(s, c, lang)
  {}

  /** The run `SpaceRun` measures is what `\s*` or `\s+` takes. */
  lemma {:induction false} SpacesTaken(s: string, i: nat)
    requires i <= |s|
    ensures SpacesBetween(s, i, i + SpaceRun(s, i))
  {
    SpaceRunAll(s, i);
  }

  /** A non-empty run `WordRun` measures is what a final `(\w+)` takes. */
  lemma {:induction false} WordTaken(s: string, u: nat)
    requires WordRun(s, u) > 0
    ensures WholeWord(s, u, s[u..u + WordRun(s, u)])
  {
    var w := s[u..u + WordRun(s, u)];
    WordRunAll(s, u);
    assert forall k :: 0 <= k < |w| ==> w[k] == s[u + k];
  }

  /** The conditions a lazy group stops at: what follows the group in the pattern. */
  datatype Stop =
    | RemindStop     // (?:\s+at|\s+tomorrow|\s+today|\s+on|\s+\d)
    | ToStop         // \s+to\s+(\w+)
    | QuotedToStop   // ["']\s+to\s+(\w+)
    | NameStop       // (?:\s+at|\s+on|$)
    | OpenQuoteStop  // ["'](.+?)["']

  /** Where the rest of the pattern after the lazy group ends when tried at `c`, if it
      matches there. */
  function RestEnd(k: Stop, s: string, c: nat): (r: Option<nat>)
    ensures r.Some? ==> c <= r.value <= |s|
  {
    var p := c + SpaceRun(s, c);
    match k
    case RemindStop =>
      if SpaceRun(s, c) == 0 then None
      else if OccursAtCi(s, "at", p) then Some(p + 2)
      else if OccursAtCi(s, "tomorrow", p) then Some(p + 8)
      else if OccursAtCi(s, "today", p) then Some(p + 5)
      else if OccursAtCi(s, "on", p) then Some(p + 2)
      else if p < |s| && IsDigit(s[p]) then Some(p + 1)
      else None
    case ToStop =>
      if ToFollows(s, c) then Some(LanguageStart(s, c) + WordRun(s, LanguageStart(s, c))) else None
    case QuotedToStop =>
      if c < |s| && IsQuote(s[c]) && ToFollows(s, c + 1)
      then Some(LanguageStart(s, c + 1) + WordRun(s, LanguageStart(s, c + 1)))
      else None
    case NameStop =>
      if c == |s| then Some(c)
      else if SpaceRun(s, c) > 0 && (OccursAtCi(s, "at", p) || OccursAtCi(s, "on", p)) then Some(p + 2)
      else None
    case OpenQuoteStop =>
      if c < |s| && QuotedAt(s, c).Some? then Some(QuotedAt(s, c).value.1 + 1) else None
  }

  /** The rest of the pattern matches at `c`: a lazy group may end there. */
  predicate StopsAt(k: Stop, s: string, c: nat) {
    RestEnd(k, s, c).Some?
  }

  /** `k` stops nowhere in `[c, e)`. */
  predicate NoStopIn(k: Stop, s: string, c: nat, e: nat) {
    forall x :: c <= x < e ==> RestEnd(k, s, x).None?
  }

  /** The first index in `[c, limit]` where `k` stops: where a lazy group ends. */
  function FirstStop(k: Stop, s: string, c: nat, limit: nat): (r: Option<nat>)
    requires limit <= |s|
    ensures r.Some? ==> c <= r.value <= limit
    decreases limit + 1 - c
  {
    if c > limit then None
    else if StopsAt(k, s, c) then Some(c)
    else FirstStop(k, s, c + 1, limit)
  }

  /** Conversely, a stop after a stretch without one is the first stop. */
  lemma {:induction false} FirstStopAt(k: Stop, s: string, c: nat, limit: nat, e: nat)
    requires c <= e <= limit <= |s| && StopsAt(k, s, e) && NoStopIn(k, s, c, e)
    ensures FirstStop(k, s, c, limit) == Some(e)
    decreases e - c
  {
    if c < e {
      FirstStopAt(k, s, c + 1, limit, e);
    }
  }

  /** Where `FirstStop` finds a stop, `k` stops there and nowhere before it. */
  lemma {:induction false} FirstStopFound(k: Stop, s: string, c: nat, limit: nat)
    requires limit <= |s| && FirstStop(k, s, c, limit).Some?
    ensures StopsAt(k, s, FirstStop(k, s, c, limit).value)
    ensures NoStopIn(k, s, c, FirstStop(k, s, c, limit).value)
    decreases limit + 1 - c
  {
    if !StopsAt(k, s, c) {
      var v := FirstStop(k, s, c + 1, limit).value;
      assert FirstStop(k, s, c, limit) == FirstStop(k, s, c + 1, limit);
      FirstStopFound(k, s, c + 1, limit);
      assert NoStopIn(k, s, c, v) by {
        forall x | c <= x < v ensures RestEnd(k, s, x).None? {
          if x != c {
            assert c + 1 <= x < v;
          }
        }
      }
    }
  }

  /** Where the closing quote stop holds, a quote is there and "to" and a word follow. */
  lemma {:induction false} QuotedToStops(s: string, c: nat)
    requires StopsAt(QuotedToStop, s, c)
    ensures c < |s| && IsQuote(s[c]) && ToWord(s, c + 1).Some?
  {}

  /** Where the opening quote stop holds, a quoted group opens. */
  lemma {:induction false} OpenQuoteStops(s: string, a: nat)
    requires StopsAt(OpenQuoteStop, s, a)
    ensures a < |s| && QuotedAt(s, a).Some?
  {}

  /** Where the "to" stop holds, "to" and a word follow. */
  lemma {:induction false} ToStops(s: string, c: nat)
    requires StopsAt(ToStop, s, c)
    ensures ToWord(s, c).Some?
  {}

  /** `t`, at `a`, is what a lazy group of at least `min` characters takes before `k`:
      the group ends where `k` first stops, `min` characters or more on. */
  ghost predicate LazyUntil(k: Stop, s: string, a: nat, t: string, min: nat) {
    |t| >= min && OccursAt(s, t, a) && StopsAt(k, s, a + |t|)
    && NoStopIn(k, s, a + min, a + |t|)
  }

  /** The group `FirstStop` ends is the lazy group. */
  lemma {:induction false} LazyFound(k: Stop, s: string, a: nat, e: nat, min: nat)
    requires a + min <= e <= |s|
    requires StopsAt(k, s, e) && NoStopIn(k, s, a + min, e)
    ensures LazyUntil(k, s, a, s[a..e], min) && GroupSlices(Groups(s[a..e], ""), s)
  {
    assert a + |s[a..e]| == e;
    SliceGroups(s, a, e, 0, 0);
  }

  /** A piece within the run of the dot is on one line. */
  lemma {:induction false} LinePiece(s: string, a: nat, e: nat)
    requires a <= e <= a + LineRun(s, a) && e <= |s|
    ensures NoLineTerminator(s[a..e])
  {
    var t := s[a..e];
    LineRunAll(s, a);
    assert forall i :: 0 <= i < |t| ==> t[i] == s[a + i];
  }

  /** The group `(.+?)` that `FirstStop` ends at `c`, searched within the line from
      `b`: it is the lazy group before `k`, on one line, and a piece of `s`. */
  lemma {:induction false} LazyLine(k: Stop, s: string, b: nat, c: nat)
    requires b <= |s| && FirstStop(k, s, b + 1, b + LineRun(s, b)) == Some(c)
    ensures b < c <= |s| && StopsAt(k, s, c) && s[b..c] != []
    ensures LazyUntil(k, s, b, s[b..c], 1) && NoLineTerminator(s[b..c]) && IsSliceOf(s[b..c], s)
  {
    FirstStopFound(k, s, b + 1, b + LineRun(s, b));
    LazyFound(k, s, b, c, 1);
    LinePiece(s, b, c);
    PieceIsSlice(s, b, c);
  }

  // ------------------------------------------------------------ times of a reminder

  /** The clock text read at `j`, as a group. */
  lemma {:induction false} ClockGroup(s: string, j: nat, e: nat)
    requires j < |s| && IsDigit(s[j]) && e == TimeResolver.ClockAt(s, j).end
    ensures GroupSlices(Groups(s[j..e], ""), s) && s[j..e] != [] && OccursAt(s, s[j..e], j)
    ensures IsDigit(s[j..e][0]) && TimeResolver.FindClock(s[j..e]) == Some(TimeResolver.ClockAt(s, j).clock)
  {
    SliceGroups(s, j, e, 0, 0);
    TimeResolver.ClockGroupReads(s, j);
  }

  /** `at (\d{1,2}(?::\d{2})?\s*(?:am|pm)?)` at `j`: "at " and a digit. The group is the
      clock text from that digit, and read on its own it gives the clock read there. */
  function MatchAtClock(s: string, j: nat): (r: Option<Groups>)
    ensures r.Some? <==> OccursAtCi(s, "at ", j) && j + 3 < |s| && IsDigit(s[j + 3])
    ensures r.Some? ==> GroupSlices(r.value, s) && r.value.first != [] && r.value.second == []
    ensures r.Some? ==> r.value.first != [] && OccursAt(s, r.value.first, j + 3) && IsDigit(r.value.first[0])
    ensures r.Some? ==> TimeResolver.FindClock(r.value.first) == Some(TimeResolver.ClockAt(s, j + 3).clock)
  {
    if OccursAtCi(s, "at ", j) && j + 3 < |s| && IsDigit(s[j + 3]) then
      ClockGroup(s, j + 3, TimeResolver.ClockAt(s, j + 3).end);
      Some(Groups(s[j + 3..TimeResolver.ClockAt(s, j + 3).end], ""))
    else None
  }

  /** `t` ends in "am" or "pm", after at least a digit. */
  predicate EndsInMeridiem(t: string) {
    |t| >= 3 && (OccursAtCi(t, "am", |t| - 2) || OccursAtCi(t, "pm", |t| - 2))
  }

  /** A clock read at `j` that ends in "am" or "pm" does so as a piece of the message too. */
  lemma {:induction false} MeridiemTail(s: string, j: nat, e: nat, t: string)
    requires j < |s| && IsDigit(s[j]) && TimeResolver.ClockAt(s, j).clock.meridiem != TimeResolver.NoMeridiem
    requires e == TimeResolver.ClockAt(s, j).end && t == s[j..e]
    ensures EndsInMeridiem(t)
  {
    TimeResolver.ClockAtMeridiem(s, j);
    assert s[j..e][e - j - 2..e - j] == s[e - 2..e];
  }

  /** `(\d{1,2}(?::\d{2})?\s*(?:am|pm))` at `j`: a clock that ends in "am" or "pm". */
  function MatchClockMeridiem(s: string, j: nat): (r: Option<Groups>)
    ensures r.Some? <==>
      (j < |s| && IsDigit(s[j]) && TimeResolver.ClockAt(s, j).clock.meridiem != TimeResolver.NoMeridiem)
    ensures r.Some? ==> GroupSlices(r.value, s) && r.value.first != [] && r.value.second == []
    ensures r.Some? ==> OccursAt(s, r.value.first, j) && IsDigit(r.value.first[0])
    ensures r.Some? ==> EndsInMeridiem(r.value.first)
    ensures r.Some? ==> TimeResolver.FindClock(r.value.first) == Some(TimeResolver.ClockAt(s, j).clock)
  {
    if j < |s| && IsDigit(s[j]) && TimeResolver.ClockAt(s, j).clock.meridiem != TimeResolver.NoMeridiem then
      var e := TimeResolver.ClockAt(s, j).end;
      ClockGroup(s, j, e);
      MeridiemTail(s, j, e, s[j..e]);
      Some(Groups(s[j..e], ""))
    else None
  }

  /** The word of an alternation found at `j` is the slice there, lower-cased. */
  lemma {:induction false} AltGroup(s: string, ws: seq<string>, j: nat, k: nat)
    requires k < |ws| && ws[k] != [] && OccursAtCi(s, ws[k], j)
    ensures var t := s[j..j + |ws[k]|];
      t != [] && OccursAt(s, t, j) && LowerStr(t) in ws && GroupSlices(Groups(t, ""), s)
  {
    SliceGroups(s, j, j + |ws[k]|, 0, 0);
  }

  /** `(tomorrow|today|tonight)` at `j`. */
  function MatchDayWord(s: string, j: nat): (r: Option<Groups>)
    ensures r.Some? <==> exists k :: 0 <= k < |DayWords| && OccursAtCi(s, DayWords[k], j)
    ensures r.Some? ==> GroupSlices(r.value, s) && r.value.first != [] && r.value.second == []
    ensures r.Some? ==> OccursAt(s, r.value.first, j) && LowerStr(r.value.first) in DayWords
  {
    match AltAt(s, DayWords, j)
    case None => None
    case Some(k) =>
      AltGroup(s, DayWords, j, k);
      Some(Groups(s[j..j + |DayWords[k]|], ""))
  }

  /** `on (monday|tuesday|wednesday|thursday|friday|saturday|sunday)` at `j`. */
  function MatchOnWeekday(s: string, j: nat): (r: Option<Groups>)
    ensures r.Some? <==> OccursAtCi(s, "on ", j) && exists k :: 0 <= k < |Weekdays| && OccursAtCi(s, Weekdays[k], j + 3)
    ensures r.Some? ==> GroupSlices(r.value, s) && r.value.first != [] && r.value.second == []
    ensures r.Some? ==> OccursAt(s, r.value.first, j + 3) && LowerStr(r.value.first) in Weekdays
  {
    if !OccursAtCi(s, "on ", j) then None
    else
      match AltAt(s, Weekdays, j + 3)
      case None => None
      case Some(k) =>
        AltGroup(s, Weekdays, j + 3, k);
        Some(Groups(s[j + 3..j + 3 + |Weekdays[k]|], ""))
  }

  // ------------------------------------------------------------ a reminder's task

  /** `remind me to (.+?)(?:\s+at|\s+tomorrow|\s+today|\s+on|\s+\d)` at `j`: the task
      starts after "remind me to " and ends at the first place, one character or more
      on, where whitespace and a time word or a digit follow. */
  function MatchRemindUntilTime(s: string, j: nat): (r: Option<Groups>)
    ensures r.Some? ==> OccursAtCi(s, "remind me to ", j)
    ensures r.Some? ==> GroupSlices(r.value, s) && r.value.first != [] && r.value.second == []
    ensures r.Some? ==> LazyUntil(RemindStop, s, j + 13, r.value.first, 1) && NoLineTerminator(r.value.first)
  {
    if !OccursAtCi(s, "remind me to ", j) then None
    else
      var b := j + 13;
      match FirstStop(RemindStop, s, b + 1, b + LineRun(s, b))
      case None => None
      case Some(e) =>
        LazyLine(RemindStop, s, b, e);
        OneGroup(s[b..e], s);
        Some(Groups(s[b..e], ""))
  }

  /** `remind me to (.+)` at `j`: the rest of the line after "remind me to ". */
  function MatchRemindRest(s: string, j: nat): (r: Option<Groups>)
    ensures r.Some? <==> OccursAtCi(s, "remind me to ", j) && j + 13 < |s| && !IsLineTerminator(s[j + 13])
    ensures r.Some? ==> GroupSlices(r.value, s) && r.value.first != [] && r.value.second == []
    ensures r.Some? ==> RestOfLine(s, j + 13, r.value.first)
  {
    if !OccursAtCi(s, "remind me to ", j) || j + 13 >= |s| || IsLineTerminator(s[j + 13]) then None
    else
      var b := j + 13;
      LineRest(s, b);
      SliceGroups(s, b, b + LineRun(s, b), 0, 0);
      Some(Groups(s[b..b + LineRun(s, b)], ""))
  }

  // ------------------------------------------------------------ WhatsApp messages

  /** The phone number `t` starts at `j`, and it is shorter than fifteen characters only
      where no digit follows it: `\d{10,15}` is greedy. */
  ghost predicate PhoneAt(s: string, j: nat, t: string) {
    OccursAt(s, t, j) && IsPhoneNumber(t) && (j + |t| < |s| && IsDigit(s[j + |t|]) ==> |t| >= 15)
  }

  /** `(\+?\d{10,15})` at `j`: an optional plus sign and ten digits or more, at most
      fifteen; fewer than fifteen only where no digit follows. */
  function MatchPhoneNumber(s: string, j: nat): (r: Option<Groups>)
    ensures r.Some? ==> GroupSlices(r.value, s) && r.value.first != [] && r.value.second == []
    ensures r.Some? ==> PhoneAt(s, j, r.value.first)
  {
    var a := if j < |s| && s[j] == '+' then j + 1 else j;
    var digits := DigitRun(s, a);
    if j >= |s| || digits < 10 then None
    else
      var e := a + (if digits > 15 then 15 else digits);
      PhoneDigits(s, j, a, e);
      SliceGroups(s, j, e, 0, 0);
      Some(Groups(s[j..e], ""))
  }

  /** An optional plus sign at `j` and ten to fifteen digits from `a` make a phone number. */
  lemma {:induction false} PhoneDigits(s: string, j: nat, a: nat, e: nat)
    requires j < |s| && a == (if s[j] == '+' then j + 1 else j) && a + 10 <= e <= a + 15 && e <= |s|
    requires e == a + (if DigitRun(s, a) > 15 then 15 else DigitRun(s, a))
    ensures PhoneAt(s, j, s[j..e])
  {
    DigitRunAll(s, a);
    var t := s[j..e];
    assert forall k :: 0 <= k < |t| ==> t[k] == s[j + k];
    assert t[0] == '+' ==> t[1..] == s[a..e];
  }

  /** Wherever a phone number starts, the pattern matches there. */
  lemma {:induction false} PhoneNumberFound(s: string, j: nat, t: string)
    requires OccursAt(s, t, j) && IsPhoneNumber(t)
    ensures MatchPhoneNumber(s, j).Some?
  {
    var a := if t[0] == '+' then j + 1 else j;
    var d := s[a..j + |t|];
    assert d == if t[0] == '+' then t[1..] else t;
    assert forall k :: a <= k < a + |d| ==> s[k] == d[k - a];
    DigitRunAtLeast(s, a, |d|);
  }

  /** `t` is what `(?:message|text|whatsapp)\s+([a-zA-Z]+)` captures at `j`: the
      letters after the keyword and its whitespace. */
  ghost predicate ContactAfter(s: string, j: nat, t: string) {
    exists k, a: nat ::
      0 <= k < |ContactWords| && OccursAtCi(s, ContactWords[k], j)
      && j + |ContactWords[k]| < a && SpacesBetween(s, j + |ContactWords[k]|, a)
      && LetterWord(s, a, t)
  }

  /** `(?:message|text|whatsapp)\s+([a-zA-Z]+)` at `j`: the letters after the keyword
      and its whitespace. */
  function MatchContactName(s: string, j: nat): (r: Option<Groups>)
    ensures r.Some? ==> GroupSlices(r.value, s) && r.value.first != [] && r.value.second == []
    ensures r.Some? ==> ContactAfter(s, j, r.value.first)
  {
    match AltAt(s, ContactWords, j)
    case None => None
    case Some(k) =>
      var q := j + |ContactWords[k]|;
      var a := q + SpaceRun(s, q);
      if SpaceRun(s, q) == 0 || LetterRun(s, a) == 0 then None
      else
        ContactFound(s, j, k, a);
        Some(Groups(s[a..a + LetterRun(s, a)], ""))
  }

  /** The letters after a keyword and its whitespace are the contact captured there. */
  lemma {:induction false} ContactFound(s: string, j: nat, k: nat, a: nat)
    requires k < |ContactWords| && OccursAtCi(s, ContactWords[k], j)
    requires SpaceRun(s, j + |ContactWords[k]|) > 0 && a == j + |ContactWords[k]| + SpaceRun(s, j + |ContactWords[k]|)
    requires LetterRun(s, a) > 0
    ensures a + LetterRun(s, a) <= |s|
    ensures GroupSlices(Groups(s[a..a + LetterRun(s, a)], ""), s)
    ensures ContactAfter(s, j, s[a..a + LetterRun(s, a)])
  {
    var q := j + |ContactWords[k]|;
    var t := s[a..a + LetterRun(s, a)];
    assert forall e :: 0 <= e < |t| ==> t[e] == s[a + e];
    SpaceRunAll(s, q);
    LetterRunAll(s, a);
    assert SpacesBetween(s, q, a) && LetterWord(s, a, t);
    SliceGroups(s, a, a + LetterRun(s, a), 0, 0);
  }

  /** `t` is what `(?:say|tell|message).*?["'](.+?)["']` captures at `j`: after the
      keyword, the first quote on the same line that opens a quoted group. */
  ghost predicate SaidMessage(s: string, j: nat, t: string) {
    exists k, a: nat ::
      0 <= k < |SayWords| && OccursAtCi(s, SayWords[k], j)
      && Quoted(s, a, t)
      && j + |SayWords[k]| <= a && NoLineTerminator(s[j + |SayWords[k]|..a])
      && forall c: nat, t' :: j + |SayWords[k]| <= c < a ==> !Quoted(s, c, t')
  }

  /** `(?:say|tell|message).*?["'](.+?)["']` at `j`. */
  function MatchQuotedMessage(s: string, j: nat): (r: Option<Groups>)
    ensures r.Some? ==> GroupSlices(r.value, s) && r.value.first != [] && r.value.second == []
    ensures r.Some? ==> SaidMessage(s, j, r.value.first)
  {
    match AltAt(s, SayWords, j)
    case None => None
    case Some(k) =>
      var q := j + |SayWords[k]|;
      match FirstStop(OpenQuoteStop, s, q, q + LineRun(s, q))
      case None => None
      case Some(a) =>
        SaidFound(s, j, k, a);
        Some(Groups(QuotedAt(s, a).value.0, ""))
  }

  /** The quoted group that opens at the first opening-quote stop after the keyword is
      the message said there. */
  lemma {:induction false} SaidFound(s: string, j: nat, k: nat, a: nat)
    requires k < |SayWords| && OccursAtCi(s, SayWords[k], j)
    requires FirstStop(OpenQuoteStop, s, j + |SayWords[k]|, j + |SayWords[k]| + LineRun(s, j + |SayWords[k]|)) == Some(a)
    ensures a < |s| && QuotedAt(s, a).Some?
    ensures GroupSlices(Groups(QuotedAt(s, a).value.0, ""), s) && QuotedAt(s, a).value.0 != []
    ensures SaidMessage(s, j, QuotedAt(s, a).value.0)
  {
    var q := j + |SayWords[k]|;
    FirstStopFound(OpenQuoteStop, s, q, q + LineRun(s, q));
    OpenQuoteStops(s, a);
    var (g, c) := QuotedAt(s, a).value;
    QuotedAtShape(s, a, g, c);
    LinePiece(s, q, a);
    NoEarlierQuote(s, q, a);
    SaidAt(s, j, k, a, g);
    SliceGroups(s, a + 1, c, 0, 0);
  }

  /** The keyword `k` at `j`, then a stretch of one line without a quoted group, then
      the quoted group `t` at `a`: `t` is the message said. */
  lemma {:induction false} SaidAt(s: string, j: nat, k: nat, a: nat, t: string)
    requires k < |SayWords| && OccursAtCi(s, SayWords[k], j) && Quoted(s, a, t)
    requires j + |SayWords[k]| <= a && NoLineTerminator(s[j + |SayWords[k]|..a])
    requires forall c: nat, t' :: j + |SayWords[k]| <= c < a ==> !Quoted(s, c, t')
    ensures SaidMessage(s, j, t)
  {}

  /** `message:?\s*(.+)` at `j`: the rest of the line after "message", an optional
      colon and whitespace. */
  function MatchMessageRest(s: string, j: nat): (r: Option<Groups>)
    ensures r.Some? ==> OccursAtCi(s, "message", j)
    ensures r.Some? ==> GroupSlices(r.value, s) && r.value.first != [] && r.value.second == []
    ensures r.Some? ==> exists b: nat :: ColonSpaces(s, j + 7, b) && RestOfLine(s, b, r.value.first)
  {
    if !OccursAtCi(s, "message", j) then None
    else
      match ColonRest(s, j + 7)
      case None => None
      case Some(t) =>
        OneGroup(t, s);
        Some(Groups(t, ""))
  }

  // ------------------------------------------------------------ translations

  /** `t`, with its opening quote at `a`, and `lang` are what
      `["'](.+?)["']\s+to\s+(\w+)` captures: the text group ends at the first quote,
      one character or more on, that "to" and a word follow. */
  ghost predicate QuotedTo(s: string, a: nat, g: Groups) {
    a < |s| && IsQuote(s[a]) && LazyUntil(QuotedToStop, s, a + 1, g.first, 1)
    && NoLineTerminator(g.first) && a + 1 + |g.first| < |s| && IsQuote(s[a + 1 + |g.first|])
    && ToLanguage(s, a + 2 + |g.first|, g.second)
  }

  /** A one-line lazy group `t` after the quote at `a`, closed by the quote at `c`, that
      "to" and the word `w` follow, makes the groups of `["'](.+?)["']\s+to\s+(\w+)`. */
  lemma {:induction false} QuotedToGroups(s: string, a: nat, c: nat, t: string, w: string)
    requires a < |s| && IsQuote(s[a]) && c == a + 1 + |t| && c < |s| && IsQuote(s[c])
    requires LazyUntil(QuotedToStop, s, a + 1, t, 1) && NoLineTerminator(t) && IsSliceOf(t, s)
    requires ToWord(s, c + 1) == Some(w)
    ensures t != [] && w != [] && GroupSlices(Groups(t, w), s)
    ensures QuotedTo(s, a, Groups(t, w))
  {
    ToWordFound(s, c + 1, w);
    QuotedToHolds(s, a, c, t, w);
  }

  lemma {:induction false} QuotedToHolds(s: string, a: nat, c: nat, t: string, w: string)
    requires a < |s| && IsQuote(s[a]) && c == a + 1 + |t| && c < |s| && IsQuote(s[c])
    requires LazyUntil(QuotedToStop, s, a + 1, t, 1) && NoLineTerminator(t)
    requires ToLanguage(s, c + 1, w)
    ensures QuotedTo(s, a, Groups(t, w))
  {}

  /** The groups of `["'](.+?)["']\s+to\s+(\w+)` when `FirstStop` ends the text at `c`,
      the closing quote. */
  lemma {:induction false} QuotedToFound(s: string, a: nat, c: nat)
    requires a < |s| && IsQuote(s[a]) && FirstStop(QuotedToStop, s, a + 1 + 1, a + 1 + LineRun(s, a + 1)) == Some(c)
    ensures a + 1 < c < |s| && ToWord(s, c + 1).Some?
    ensures s[a + 1..c] != [] && ToWord(s, c + 1).value != []
    ensures GroupSlices(Groups(s[a + 1..c], ToWord(s, c + 1).value), s)
    ensures QuotedTo(s, a, Groups(s[a + 1..c], ToWord(s, c + 1).value))
  {
    LazyLine(QuotedToStop, s, a + 1, c);
    QuotedToStops(s, c);
    QuotedToGroups(s, a, c, s[a + 1..c], ToWord(s, c + 1).value);
  }

  /** `["'](.+?)["']\s+to\s+(\w+)` with the opening quote at `a`. */
  function QuotedToAt(s: string, a: nat): (r: Option<Groups>)
    requires a < |s|
    ensures r.Some? ==> GroupSlices(r.value, s) && r.value.first != [] && r.value.second != []
    ensures r.Some? ==> QuotedTo(s, a, r.value)
  {
    if !IsQuote(s[a]) then None
    else
      var b := a + 1;
      match FirstStop(QuotedToStop, s, b + 1, b + LineRun(s, b))
      case None => None
      case Some(c) =>
        QuotedToFound(s, a, c);
        Some(Groups(s[b..c], ToWord(s, c + 1).value))
  }

  /** The text group of `translate\s+(.+?)\s+to\s+(\w+)` starts at `a` and ends where
      "to" and a word first follow. */
  ghost predicate UntilTo(s: string, a: nat, g: Groups) {
    LazyUntil(ToStop, s, a, g.first, 1) && NoLineTerminator(g.first)
    && ToLanguage(s, a + |g.first|, g.second)
  }

  /** A one-line lazy group `t` at `a` that "to" and the word `w` follow makes the
      groups of `(.+?)\s+to\s+(\w+)`. */
  lemma {:induction false} UntilToGroups(s: string, a: nat, c: nat, t: string, w: string)
    requires c == a + |t| && LazyUntil(ToStop, s, a, t, 1) && NoLineTerminator(t) && IsSliceOf(t, s)
    requires ToWord(s, c) == Some(w)
    ensures t != [] && w != [] && GroupSlices(Groups(t, w), s) && UntilTo(s, a, Groups(t, w))
  {
    ToWordFound(s, c, w);
  }


  /** The groups of `(.+?)\s+to\s+(\w+)` at `a` when `FirstStop` ends the text at `c`. */
  lemma {:induction false} UntilToFound(s: string, a: nat, c: nat)
    requires a < |s| && FirstStop(ToStop, s, a + 1, a + LineRun(s, a)) == Some(c)
    ensures a < c <= |s| && ToWord(s, c).Some?
    ensures s[a..c] != [] && ToWord(s, c).value != []
    ensures GroupSlices(Groups(s[a..c], ToWord(s, c).value), s)
    ensures UntilTo(s, a, Groups(s[a..c], ToWord(s, c).value))
  {
    LazyLine(ToStop, s, a, c);
    ToStops(s, c);
    UntilToGroups(s, a, c, s[a..c], ToWord(s, c).value);
  }

  /** `(.+?)\s+to\s+(\w+)` at `a`. */
  function UntilToAt(s: string, a: nat): (r: Option<Groups>)
    requires a < |s|
    ensures r.Some? ==> GroupSlices(r.value, s) && r.value.first != [] && r.value.second != []
    ensures r.Some? ==> UntilTo(s, a, r.value)
  {
    match FirstStop(ToStop, s, a + 1, a + LineRun(s, a))
    case None => None
    case Some(c) =>
      UntilToFound(s, a, c);
      Some(Groups(s[a..c], ToWord(s, c).value))
  }

  /** `\s+(.+?)\s+to\s+(\w+)` at `q`, with `k` whitespace characters at `q`: the text
      group starts after all of them, and when that fails the run gives them back one
      at a time, so that the text group starts with whitespace. */
  function UntilToFrom(s: string, q: nat, k: nat): (r: Option<Groups>)
    requires q + k <= |s| && forall e :: q <= e < q + k ==> IsSpace(s[e])
    ensures r.Some? ==> GroupSlices(r.value, s) && r.value.first != [] && r.value.second != []
    ensures r.Some? ==> exists a: nat :: q < a <= q + k && SpacesBetween(s, q, a) && UntilTo(s, a, r.value)
    decreases k
  {
    if k == 0 then None
    else
      var here := if q + k < |s| then UntilToAt(s, q + k) else None;
      if here.Some? then
        assert SpacesBetween(s, q, q + k);
        here
      else UntilToFrom(s, q, k - 1)
  }

  /** `(\w+):?\s*(.+)` at `w` gave `g`: word characters, then the rest of the line
      after an optional colon and whitespace; with `wholeWord`, all the word there. */
  ghost predicate LanguageFirst(s: string, w: nat, g: Groups, wholeWord: bool) {
    g.first != [] && OccursAt(s, g.first, w) && (forall k :: 0 <= k < |g.first| ==> IsWordChar(g.first[k]))
    && (exists b: nat :: ColonSpaces(s, w + |g.first|, b) && RestOfLine(s, b, g.second))
    && (wholeWord ==> WholeWord(s, w, g.first))
  }

  /** The run of word characters at `r` is a whole word. */
  lemma {:induction false} WordAt(s: string, r: nat)
    requires WordRun(s, r) > 0
    ensures WholeWord(s, r, s[r..r + WordRun(s, r)]) && IsSliceOf(s[r..r + WordRun(s, r)], s)
  {
    var word := s[r..r + WordRun(s, r)];
    WordRunAll(s, r);
    assert forall k :: 0 <= k < |word| ==> word[k] == s[r + k];
    PieceIsSlice(s, r, r + WordRun(s, r));
  }

  /** The word at `r` and what `:?\s*(.+)` takes after it. */
  lemma {:induction false} RestAfterWord(s: string, r: nat, e: nat, wholeWord: bool)
    requires WordRun(s, r) > 0 && e == r + WordRun(s, r) && ColonRest(s, e).Some?
    ensures GroupSlices(Groups(s[r..e], ColonRest(s, e).value), s)
    ensures LanguageFirst(s, r, Groups(s[r..e], ColonRest(s, e).value), wholeWord)
  {
    WordAt(s, r);
  }

  /** The word at `r` but its last character, and the rest of the line from there. */
  lemma {:induction false} WordGivesBack(s: string, r: nat, t: nat)
    requires WordRun(s, r) >= 2 && t == r + WordRun(s, r) - 1
    ensures GroupSlices(Groups(s[r..t], s[t..t + LineRun(s, t)]), s)
    ensures LanguageFirst(s, r, Groups(s[r..t], s[t..t + LineRun(s, t)]), false)
  {
    WordRunAll(s, r);
    LineRest(s, t);
    SliceGroups(s, r, t, t, t + LineRun(s, t));
    assert ColonSpaces(s, t, t);
    assert forall k :: 0 <= k < t - r ==> s[r..t][k] == s[r + k];
  }

  /** `(\w+):?\s*(.+)` at `r`, where a word starts. When nothing follows the word on its
      line, the word gives back its last character for the dot to take; with
      `wholeWord` it does not, and the pattern fails instead. */
  function WordAndRest(s: string, r: nat, wholeWord: bool): (res: Option<Groups>)
    requires WordRun(s, r) > 0
    ensures res.Some? ==> GroupSlices(res.value, s) && LanguageFirst(s, r, res.value, wholeWord)
  {
    var e := r + WordRun(s, r);
    WordAt(s, r);
    if ColonRest(s, e).Some? then
      RestAfterWord(s, r, e, wholeWord);
      Some(Groups(s[r..e], ColonRest(s, e).value))
    else if e - r >= 2 && !wholeWord then
      var t := e - 1;
      WordGivesBack(s, r, t);
      Some(Groups(s[r..t], s[t..t + LineRun(s, t)]))
    else None
  }

  /** `to\s+(\w+):?\s*(.+)` at `a`. */
  function ToFirstAt(s: string, a: nat, wholeWord: bool): (r: Option<Groups>)
    requires a < |s|
    ensures r.Some? ==> GroupSlices(r.value, s) && OccursAtCi(s, "to", a)
    ensures r.Some? ==>
      exists w: nat :: a + 2 < w && SpacesBetween(s, a + 2, w) && LanguageFirst(s, w, r.value, wholeWord)
  {
    var w := a + 2 + SpaceRun(s, a + 2);
    if !OccursAtCi(s, "to", a) || SpaceRun(s, a + 2) == 0 || WordRun(s, w) == 0 then None
    else
      SpaceRunAll(s, a + 2);
      assert SpacesBetween(s, a + 2, w);
      WordAndRest(s, w, wholeWord)
  }

  const ToFrench := "to French"

  lemma {:induction false} ToFrenchWord()
    ensures OccursAtCi(ToFrench, "to", 0) && SpaceRun(ToFrench, 2) == 1
  {
    assert ToFrench[..2] == "to";
  }

  lemma {:induction false} ToFrenchRun()
    ensures WordRun(ToFrench, 3) == 6
  {
    assert WordRun(ToFrench, 9) == 0;
    assert WordRun(ToFrench, 8) == 1;
    assert WordRun(ToFrench, 6) == 3;
  }

  lemma {:induction false} ToFrenchRest()
    ensures ColonRest(ToFrench, 9).None? && LineRun(ToFrench, 8) == 1
  {}

  /** As written, "to French" with nothing after it gives the language "Frenc" and the
      text "h": the word gives back its last character for the text group. */
  lemma {:induction false} ToFirstSplitsWord()
    ensures ToFirstAt(ToFrench, 0, false) == Some(Groups("Frenc", "h"))
    ensures ToFirstAt(ToFrench, 0, true) == None
  {
    ToFrenchWord();
    ToFrenchRun();
    ToFrenchRest();
    assert ToFrench[3..8] == "Frenc" && ToFrench[8..9] == "h";
  }

  /** `translate\s+` at `j`, ending at `a`, with something after it. */
  predicate TranslateLead(s: string, j: nat, a: nat) {
    OccursAtCi(s, "translate", j) && j + 9 < a < |s| && SpacesBetween(s, j + 9, a)
  }

  /** `translate\s+["'](.+?)["']\s+to\s+(\w+)` at `j`. */
  function MatchTranslateQuoted(s: string, j: nat): (r: Option<Groups>)
    ensures r.Some? ==> GroupSlices(r.value, s) && r.value.first != [] && r.value.second != []
  {
    var q := j + 9;
    var a := q + SpaceRun(s, q);
    if !OccursAtCi(s, "translate", j) || SpaceRun(s, q) == 0 || a >= |s| then None
    else QuotedToAt(s, a)
  }

  /** What the quoted translation pattern captures at `j`: the lead `translate\s+`, then
      the quoted text and the language. */
  lemma {:induction false} TranslateQuotedCaptures(s: string, j: nat)
    ensures MatchTranslateQuoted(s, j).Some? ==>
      exists a: nat :: TranslateLead(s, j, a) && QuotedTo(s, a, MatchTranslateQuoted(s, j).value)
  {
    var q := j + 9;
    if OccursAtCi(s, "translate", j) && SpaceRun(s, q) > 0 && q + SpaceRun(s, q) < |s| {
      SpaceRunAll(s, q);
      assert TranslateLead(s, j, q + SpaceRun(s, q));
    }
  }

  /** `translate\s+(.+?)\s+to\s+(\w+)` at `j`. */
  function MatchTranslateUntilTo(s: string, j: nat): (r: Option<Groups>)
    ensures r.Some? ==> GroupSlices(r.value, s) && r.value.first != [] && r.value.second != []
  {
    if !OccursAtCi(s, "translate", j) then None
    else
      SpaceRunAll(s, j + 9);
      UntilToFrom(s, j + 9, SpaceRun(s, j + 9))
  }

  /** What the lazy translation pattern captures at `j`: the lead "translate" and
      whitespace, then the text up to the first "to" and a word. */
  lemma {:induction false} TranslateUntilToCaptures(s: string, j: nat)
    ensures MatchTranslateUntilTo(s, j).Some? ==>
      exists a: nat ::
        OccursAtCi(s, "translate", j) && j + 9 < a && SpacesBetween(s, j + 9, a)
        && UntilTo(s, a, MatchTranslateUntilTo(s, j).value)
  {
    if OccursAtCi(s, "translate", j) {
      SpaceRunAll(s, j + 9);
    }
  }

  /** `translate\s+to\s+(\w+):?\s*(.+)` at `j`: groups in the order written, the
      language first. */
  function MatchTranslateToFirst(s: string, j: nat, wholeWord: bool): (r: Option<Groups>)
    ensures r.Some? ==> GroupSlices(r.value, s) && r.value.first != [] && r.value.second != []
  {
    var q := j + 9;
    var a := q + SpaceRun(s, q);
    if !OccursAtCi(s, "translate", j) || SpaceRun(s, q) == 0 || a >= |s| then None
    else ToFirstAt(s, a, wholeWord)
  }

  /** What the "translate to" pattern captures at `j`: the lead `translate\s+`, then
      "to", the language and the text. */
  lemma {:induction false} TranslateToFirstCaptures(s: string, j: nat, wholeWord: bool)
    ensures MatchTranslateToFirst(s, j, wholeWord).Some? ==>
      exists a: nat :: TranslateLead(s, j, a) && OccursAtCi(s, "to", a)
        && exists w: nat :: a + 2 < w && SpacesBetween(s, a + 2, w)
             && LanguageFirst(s, w, MatchTranslateToFirst(s, j, wholeWord).value, wholeWord)
  {
    var q := j + 9;
    if OccursAtCi(s, "translate", j) && SpaceRun(s, q) > 0 && q + SpaceRun(s, q) < |s| {
      SpaceRunAll(s, q);
      assert TranslateLead(s, j, q + SpaceRun(s, q));
    }
  }

  // ------------------------------------------------------------ calls

  /** `call\s+` at `j`, ending at `a`. */
  predicate CallLead(s: string, j: nat, a: nat) {
    OccursAtCi(s, "call", j) && j + 4 < a <= |s| && SpacesBetween(s, j + 4, a)
  }

  /** `t` is what `call\s+(\+?\d[\d\s-]+)` captures at `j`: a number that takes all of
      `[\d\s-]` after its first digit. */
  ghost predicate DialledAt(s: string, j: nat, t: string) {
    exists a: nat :: CallLead(s, j, a) && OccursAt(s, t, a) && IsDialled(t)
      && (a + |t| == |s| || !IsPhoneChar(s[a + |t|]))
  }

  /** `call\s+(\+?\d[\d\s-]+)` at `j`. */
  function MatchCallNumber(s: string, j: nat): (r: Option<Groups>)
    ensures r.Some? ==> GroupSlices(r.value, s) && r.value.first != [] && r.value.second == []
    ensures r.Some? ==> DialledAt(s, j, r.value.first)
  {
    if !OccursAtCi(s, "call", j) then None
    else
      var q := j + 4;
      var a := q + SpaceRun(s, q);
      if SpaceRun(s, q) == 0 || a >= |s| then None
      else
        var b := if s[a] == '+' then a + 1 else a;
        if b >= |s| || !IsDigit(s[b]) || PhoneCharRun(s, b + 1) == 0 then None
        else
          var e := b + 1 + PhoneCharRun(s, b + 1);
          var t := s[a..e];
          assert forall k :: 0 <= k < |t| ==> t[k] == s[a + k];
          SpaceRunAll(s, q);
          assert CallLead(s, j, a) && IsDialled(t);
          assert DialledAt(s, j, t);
          SliceGroups(s, a, e, 0, 0);
          Some(Groups(t, ""))
  }

  /** `([a-zA-Z][a-zA-Z\s]+?)(?:\s+at|\s+on|$)` at `a` took `t`: a letter, then letters
      and whitespace, ending where the name first stops. */
  ghost predicate CalledName(s: string, a: nat, t: string) {
    LazyUntil(NameStop, s, a, t, 2) && IsAsciiLetter(t[0])
    && forall k :: 1 <= k < |t| ==> IsAsciiLetter(t[k]) || IsSpace(t[k])
  }

  lemma {:induction false} CalledNameFound(s: string, a: nat, e: nat)
    requires a < |s| && IsAsciiLetter(s[a]) && a + 2 <= e <= a + 1 + LetterSpaceRun(s, a + 1)
    requires StopsAt(NameStop, s, e) && NoStopIn(NameStop, s, a + 2, e)
    ensures CalledName(s, a, s[a..e]) && GroupSlices(Groups(s[a..e], ""), s)
  {
    LazyFound(NameStop, s, a, e, 2);
    var t := s[a..e];
    assert forall i :: 0 <= i < |t| ==> t[i] == s[a + i];
  }

  /** `call\s+([a-zA-Z][a-zA-Z\s]+?)(?:\s+at|\s+on|$)` at `j`: a letter, then letters and
      whitespace up to the first place, two characters or more on, where whitespace
      and "at" or "on" follow, or the message ends. */
  function MatchCallName(s: string, j: nat): (r: Option<Groups>)
    ensures r.Some? ==> GroupSlices(r.value, s) && r.value.first != [] && r.value.second == []
    ensures r.Some? ==>
      exists a: nat :: CallLead(s, j, a) && CalledName(s, a, r.value.first)
  {
    if !OccursAtCi(s, "call", j) then None
    else
      var q := j + 4;
      var a := q + SpaceRun(s, q);
      if SpaceRun(s, q) == 0 || a >= |s| || !IsAsciiLetter(s[a]) then None
      else
        match FirstStop(NameStop, s, a + 2, a + 1 + LetterSpaceRun(s, a + 1))
        case None => None
        case Some(e) =>
          FirstStopFound(NameStop, s, a + 2, a + 1 + LetterSpaceRun(s, a + 1));
          CalledNameFound(s, a, e);
          SpaceRunAll(s, q);
          assert CallLead(s, j, a);
          Some(Groups(s[a..e], ""))
  }

  // ------------------------------------------------------------ videos and songs

  /** With `kind`, `\s+(?:song|music)` at `q` ends at `e`; without, `e` is `q`. */
  ghost predicate KindLead(s: string, q: nat, e: nat, kind: bool) {
    if !kind then e == q
    else
      exists p: nat, k ::
        0 <= k < |KindWords| && q < p && SpacesBetween(s, q, p)
        && OccursAtCi(s, KindWords[k], p) && e == p + |KindWords[k]|
  }

  function KindEnd(s: string, q: nat, kind: bool): (r: Option<nat>)
    requires q <= |s|
    ensures r.Some? ==> q <= r.value <= |s| && KindLead(s, q, r.value, kind)
  {
    if !kind then Some(q)
    else if SpaceRun(s, q) == 0 then None
    else
      var p := q + SpaceRun(s, q);
      match AltAt(s, KindWords, p)
      case None => None
      case Some(k) =>
        SpaceRunAll(s, q);
        assert SpacesBetween(s, q, p);
        Some(p + |KindWords[k]|)
  }

  /** `word\s+["'](.+?)["']`, with `(?:song|music)` after the word when `kind`. */
  function MatchMediaQuoted(s: string, j: nat, word: string, kind: bool): (r: Option<Groups>)
    ensures r.Some? ==> GroupSlices(r.value, s) && r.value.first != [] && r.value.second == []
    ensures r.Some? ==> OccursAtCi(s, word, j)
    ensures r.Some? ==>
      exists e: nat, a: nat ::
        KindLead(s, j + |word|, e, kind)
              && e < a && SpacesBetween(s, e, a) && Quoted(s, a, r.value.first)
  {
    if !OccursAtCi(s, word, j) then None
    else
      match KindEnd(s, j + |word|, kind)
      case None => None
      case Some(e) =>
        match SpacedQuoted(s, e)
        case None => None
        case Some(t) =>
          OneGroup(t, s);
          Some(Groups(t, ""))
  }

  /** `word\s+(.+)`, with `(?:song|music)` after the word when `kind`. */
  function MatchMediaRest(s: string, j: nat, word: string, kind: bool): (r: Option<Groups>)
    ensures r.Some? ==> GroupSlices(r.value, s) && r.value.first != [] && r.value.second == []
    ensures r.Some? ==> OccursAtCi(s, word, j)
    ensures r.Some? ==>
      exists e: nat, b: nat ::
        KindLead(s, j + |word|, e, kind)
              && e < b && SpacesBetween(s, e, b) && RestOfLine(s, b, r.value.first)
  {
    if !OccursAtCi(s, word, j) then None
    else
      match KindEnd(s, j + |word|, kind)
      case None => None
      case Some(e) =>
        match SpacedRest(s, e, 1)
        case None => None
        case Some(t) =>
          OneGroup(t, s);
          Some(Groups(t, ""))
  }

  // ------------------------------------------------------------ searching

  /** Pattern `p` matched with its start at index `j`. The contract names the matcher
      of the two translation patterns with a lazy text group. */
  function MatchAt(p: Pattern, s: string, j: nat): (r: Option<Groups>)
    ensures r.Some? ==> GroupSlices(r.value, s) && r.value.first != []
    ensures p == TranslateQuoted ==> r == MatchTranslateQuoted(s, j)
    ensures p == TranslateUntilTo ==> r == MatchTranslateUntilTo(s, j)
  {
    match p
    case AtClock => MatchAtClock(s, j)
    case ClockMeridiem => MatchClockMeridiem(s, j)
    case DayWord => MatchDayWord(s, j)
    case OnWeekday => MatchOnWeekday(s, j)
    case RemindUntilTime => MatchRemindUntilTime(s, j)
    case RemindRest => MatchRemindRest(s, j)
    case PhoneNumber => MatchPhoneNumber(s, j)
    case ContactName => MatchContactName(s, j)
    case QuotedMessage => MatchQuotedMessage(s, j)
    case MessageRest => MatchMessageRest(s, j)
    case TranslateQuoted => MatchTranslateQuoted(s, j)
    case TranslateUntilTo => MatchTranslateUntilTo(s, j)
    case TranslateToFirst => MatchTranslateToFirst(s, j, false)
    case TranslateToWord => MatchTranslateToFirst(s, j, true)
    case CallNumber => MatchCallNumber(s, j)
    case CallName => MatchCallName(s, j)
    case PlayVideoQuoted => MatchMediaQuoted(s, j, "play video", false)
    case PlayVideoRest => MatchMediaRest(s, j, "play video", false)
    case ShowVideoQuoted => MatchMediaQuoted(s, j, "show video", false)
    case ShowVideoRest => MatchMediaRest(s, j, "show video", false)
    case PlayKindQuoted => MatchMediaQuoted(s, j, "play", true)
    case PlayQuoted => MatchMediaQuoted(s, j, "play", false)
    case PlayKindRest => MatchMediaRest(s, j, "play", true)
    case PlayRest => MatchMediaRest(s, j, "play", false)
  }

  /** What `p` matches at each position of `s`, the end included. */
  function Attempts(p: Pattern, s: string): (ms: seq<Option<Groups>>)
    ensures |ms| == |s| + 1
    ensures forall k :: 0 <= k < |ms| ==> ms[k] == MatchAt(p, s, k)
  {
    seq(|s| + 1, k requires 0 <= k => MatchAt(p, s, k))
  }

  /** The first success among the attempts `ms[j..]`. */
  function FirstFound(ms: seq<Option<Groups>>, j: nat): (r: Option<Groups>)
    ensures r.Some? ==> exists k :: j <= k < |ms| && ms[k] == r
    decreases |ms| - j
  {
    if j >= |ms| then None
    else if ms[j].Some? then ms[j]
    else FirstFound(ms, j + 1)
  }

  lemma {:induction false} FirstFoundLeftmost(ms: seq<Option<Groups>>, j: nat)
    requires FirstFound(ms, j).Some?
    ensures exists k :: j <= k < |ms| && ms[k] == FirstFound(ms, j) && forall e :: j <= e < k ==> ms[e].None?
    decreases |ms| - j
  {
    if ms[j].None? {
      FirstFoundLeftmost(ms, j + 1);
      var k :| j + 1 <= k < |ms| && ms[k] == FirstFound(ms, j + 1) && forall e :: j + 1 <= e < k ==> ms[e].None?;
      assert forall e :: j <= e < k ==> ms[e].None?;
    }
  }

  lemma {:induction false} FirstFoundNone(ms: seq<Option<Groups>>, j: nat)
    requires FirstFound(ms, j).None?
    ensures forall e :: j <= e < |ms| ==> ms[e].None?
    decreases |ms| - j
  {
    if j < |ms| {
      FirstFoundNone(ms, j + 1);
    }
  }

  /** A success after failures only is the first success. */
  lemma {:induction false} FirstFoundAt(ms: seq<Option<Groups>>, j: nat, k: nat)
    requires j <= k < |ms| && ms[k].Some?
    requires forall e :: j <= e < k ==> ms[e].None?
    ensures FirstFound(ms, j) == ms[k]
    decreases k - j
  {
    if j < k {
      FirstFoundAt(ms, j + 1, k);
    }
  }

  /** Failures only give no success. */
  lemma {:induction false} FirstFoundAbsent(ms: seq<Option<Groups>>, j: nat)
    requires forall e :: j <= e < |ms| ==> ms[e].None?
    ensures FirstFound(ms, j).None?
    decreases |ms| - j
  {
    if j < |ms| {
      FirstFoundAbsent(ms, j + 1);
    }
  }

  /** The leftmost match of `p` starting at `j` or later. */
  function SearchFrom(p: Pattern, s: string, j: nat): (r: Option<Groups>)
    ensures r.Some? ==> GroupSlices(r.value, s)
    ensures r.Some? ==> r.value.first != []
  {
    FirstFound(Attempts(p, s), j)
  }

  /** A search that reports a match reports the one at the leftmost position from `j` on
      where the pattern matches: the attempt there, after attempts that all failed. */
  lemma {:induction false} SearchFromLeftmost(p: Pattern, s: string, j: nat)
    requires SearchFrom(p, s, j).Some?
    ensures exists k :: j <= k <= |s| && Attempts(p, s)[k] == SearchFrom(p, s, j)
              && forall e :: j <= e < k ==> Attempts(p, s)[e].None?
  {
    FirstFoundLeftmost(Attempts(p, s), j);
  }

  /** A search that reports no match saw none at any position from `j` on. */
  lemma {:induction false} SearchFromNone(p: Pattern, s: string, j: nat)
    requires SearchFrom(p, s, j).None?
    ensures forall e :: j <= e <= |s| ==> MatchAt(p, s, e).None?
  {
    var ms := Attempts(p, s);
    assert SearchFrom(p, s, j) == FirstFound(ms, j);
    FirstFoundNone(ms, j);
  }

  /** A match is the attempt at the leftmost position where `p` matches. */
  lemma {:induction false} MatchLeftmost(p: Pattern, s: string)
    requires Match(p, s).Some?
    ensures exists j :: 0 <= j <= |s| && MatchAt(p, s, j) == Match(p, s)
              && forall e :: 0 <= e < j ==> MatchAt(p, s, e).None?
  {
    var ms := Attempts(p, s);
    SearchFromLeftmost(p, s, 0);
    var j :| 0 <= j <= |s| && ms[j] == SearchFrom(p, s, 0) && forall e :: 0 <= e < j ==> ms[e].None?;
    AttemptsLeftmost(p, s, ms, j);
  }

  /** The leftmost attempt that succeeds, read back as matches at positions. */
  lemma {:induction false} AttemptsLeftmost(p: Pattern, s: string, ms: seq<Option<Groups>>, j: nat)
    requires ms == Attempts(p, s) && j <= |s| && ms[j] == Match(p, s)
    requires forall e :: 0 <= e < j ==> ms[e].None?
    ensures MatchAt(p, s, j) == Match(p, s) && forall e :: 0 <= e < j ==> MatchAt(p, s, e).None?
  {
    forall e | 0 <= e < j ensures MatchAt(p, s, e).None? { assert ms[e].None?; }
  }

  /** Conversely, where `p` matches at `j` and nowhere before, that is the match. */
  lemma {:induction false} MatchLeftmostAt(p: Pattern, s: string, j: nat)
    requires j <= |s| && MatchAt(p, s, j).Some?
    requires forall e :: 0 <= e < j ==> MatchAt(p, s, e).None?
    ensures Match(p, s) == MatchAt(p, s, j)
  {
    var ms := Attempts(p, s);
    assert forall e :: 0 <= e < j ==> ms[e].None?;
    FirstFoundAt(ms, 0, j);
  }

  /** Where `p` matches nowhere, there is no match. */
  lemma {:induction false} MatchAbsent(p: Pattern, s: string)
    requires forall e :: 0 <= e <= |s| ==> MatchAt(p, s, e).None?
    ensures Match(p, s).None?
  {
    var ms := Attempts(p, s);
    assert forall e :: 0 <= e < |ms| ==> ms[e].None?;
    FirstFoundAbsent(ms, 0);
  }

  /** `String.prototype.match` with a pattern without the `g` flag: the leftmost match. */
  function Match(p: Pattern, s: string): (r: Option<Groups>)
    ensures r.Some? ==> GroupSlices(r.value, s) && r.value.first != []
  {
    SearchFrom(p, s, 0)
  }

  /** The first success among the results `ms[i..]`: its index and groups. */
  function FirstIndex(ms: seq<Option<Groups>>, i: nat): (r: Option<(nat, Groups)>)
    ensures r.Some? ==> i <= r.value.0 < |ms| && ms[r.value.0] == Some(r.value.1)
    ensures r.Some? ==> forall k :: i <= k < r.value.0 ==> ms[k].None?
    ensures r.None? ==> forall k :: i <= k < |ms| ==> ms[k].None?
    decreases |ms| - i
  {
    if i >= |ms| then None
    else
      match ms[i]
      case Some(g) => Some((i, g))
      case None => FirstIndex(ms, i + 1)
  }

  /** A success after failures only is the first success, with its index. */
  lemma {:induction false} FirstIndexAt(ms: seq<Option<Groups>>, i: nat, k: nat)
    requires i <= k < |ms| && ms[k].Some?
    requires forall e :: i <= e < k ==> ms[e].None?
    ensures FirstIndex(ms, i) == Some((k, ms[k].value))
    decreases k - i
  {
    if i < k {
      FirstIndexAt(ms, i + 1, k);
    }
  }

  /** What each pattern of `ps` matches in `s`. */
  function Results(ps: seq<Pattern>, s: string): (ms: seq<Option<Groups>>)
    ensures |ms| == |ps|
    ensures forall k :: 0 <= k < |ps| ==> ms[k] == Match(ps[k], s)
  {
    seq(|ps|, k requires 0 <= k < |ps| => Match(ps[k], s))
  }

  /** `ps[k]` is the first pattern of `ps` that matches `s`, with the groups `g`. */
  predicate FirstCapture(ps: seq<Pattern>, s: string, k: nat, g: Groups) {
    k < |ps| && Match(ps[k], s) == Some(g) && forall i :: 0 <= i < k ==> Match(ps[i], s).None?
  }

  /** No pattern of `ps` matches `s`. */
  predicate NoneMatches(ps: seq<Pattern>, s: string) {
    forall k :: 0 <= k < |ps| ==> Match(ps[k], s).None?
  }

  /** The first pattern of `ps` that matches `s`: a list of patterns tried in order. */
  function FirstOf(ps: seq<Pattern>, s: string): (r: Option<(nat, Groups)>)
    ensures r.Some? ==> FirstCapture(ps, s, r.value.0, r.value.1)
    ensures r.None? <==> NoneMatches(ps, s)
  {
    FirstIndex(Results(ps, s), 0)
  }

  /** There is one first pattern that matches, and `FirstOf` reports it. */
  lemma {:induction false} FirstCaptureIsFirstOf(ps: seq<Pattern>, s: string, k: nat, g: Groups)
    requires FirstCapture(ps, s, k, g)
    ensures FirstOf(ps, s) == Some((k, g))
  {
    var ms := Results(ps, s);
    assert ms[k] == Some(g) && forall i :: 0 <= i < k ==> ms[i].None?;
    FirstIndexAt(ms, 0, k);
  }

  /** The loop over a pattern list that stops at the first match. */
  method FindFirst(ps: seq<Pattern>, s: string) returns (r: Option<(nat, Groups)>)
    ensures r == FirstOf(ps, s)
  {
    ghost var ms := Results(ps, s);
    for i := 0 to |ps|
      invariant FirstOf(ps, s) == FirstIndex(ms, i)
    {
      var m := Match(ps[i], s);
      assert m == ms[i];
      if m.Some? {
        return Some((i, m.value));
      }
    }
    return None;
  }
}
