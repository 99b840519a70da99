/** The action-code micro-protocol: the bracketed `[KIND: a|b]` directives the
    assistant embeds in its replies, how they are parsed into records
    (`parseActionCodes`), how they are stripped for display (`cleanResponse`)
    and the WhatsApp deep link built from a parsed record. */
module ActionCodec {
  import opened Text

  datatype Kind = ReminderKind | WhatsAppKind | TranslateKind | CallKind | VideoKind | SongKind

  /** The literal text that opens a code of each kind. */
  function Tag(k: Kind): (t: string)
    ensures |t| >= 6 && t[0] == '['
  {
    match k
    case ReminderKind => "[SET_REMINDER:"
    case WhatsAppKind => "[WHATSAPP_LINK:"
    case TranslateKind => "[TRANSLATE:"
    case CallKind => "[CALL:"
    case VideoKind => "[PLAY_VIDEO:"
    case SongKind => "[PLAY_SONG:"
  }

  /** One record per parsed code, carrying the fields the source's records carry. */
  datatype Action =
    | SetReminder(datetime: string)
    | WhatsAppLink(phone: string, message: string)
    | Translate(language: string, text: string, oral: bool)
    | Call(phone: string, contact: string)
    | PlayVideo(videoName: string)
    | PlaySong(songName: string)
  {
    function KindOf(): Kind {
      match this
      case SetReminder(_) => ReminderKind
      case WhatsAppLink(_, _) => WhatsAppKind
      case Translate(_, _, _) => TranslateKind
      case Call(_, _) => CallKind
      case PlayVideo(_) => VideoKind
      case PlaySong(_) => SongKind
    }
  }

  /** The `text` (for TRANSLATE: `displayText`) field the source attaches to each record.
      `rendered` is the locale rendering of a reminder's datetime, or None when
      the datetime does not parse as a date. */
  function Caption(a: Action, rendered: Option<string>): string {
    match a
    case SetReminder(_) =>
      "Reminder set for " + (if rendered.Some? then rendered.value else "the specified time")
    case WhatsAppLink(_, _) => "Open WhatsApp"
    case Translate(language, _, _) => "Translate to " + language
    case Call(_, contact) => "Call " + contact
    case PlayVideo(name) => "Play video: " + name
    case PlaySong(name) => "Play song: " + name
  }

  // ------------------------------------------------------------ wire format

  /** What sits between the tag and the closing `]` of an encoded action. */
  function Inner(a: Action): string {
    match a
    case SetReminder(d) => " " + d
    case WhatsAppLink(p, m) => " " + p + "|" + m
    case Translate(l, t, o) => " " + l + "|" + t + (if o then "|oral" else "")
    case Call(p, c) => " " + p + "|" + c
    case PlayVideo(n) => " " + n
    case PlaySong(n) => " " + n
  }

  /** The code each reply builder appends, in the wire format `[KIND: field|field]`. */
  function Encode(a: Action): string {
    Tag(a.KindOf()) + Inner(a) + "]"
  }

  /** A field the wire format can carry unharmed: no bracket at all. */
  predicate Plain(f: string) { '[' !in f && ']' !in f }

  /** What the parser needs to recover every field of an encoded action: no brackets
      in any field, no `|` in a field that a `|` ends, and a non-empty field
      where the pattern demands one character after a `|`. */
  predicate Encodable(a: Action) {
    match a
    case SetReminder(d) => Plain(d)
    case WhatsAppLink(p, m) => Plain(p) && Plain(m) && '|' !in p && m != []
    case Translate(l, t, o) => Plain(l) && Plain(t) && '|' !in l && '|' !in t && t != []
    case Call(p, c) => Plain(p) && Plain(c) && '|' !in p && c != []
    case PlayVideo(n) => Plain(n)
    case PlaySong(n) => Plain(n)
  }

  /** The record the parser yields for an encoded action: every field trimmed. */
  function Normalize(a: Action): (r: Action)
    ensures r.KindOf() == a.KindOf()
  {
    match a
    case SetReminder(d) => SetReminder(Trim(d))
    case WhatsAppLink(p, m) => WhatsAppLink(Trim(p), Trim(m))
    case Translate(l, t, o) => Translate(Trim(l), Trim(t), o)
    case Call(p, c) => Call(Trim(p), Trim(c))
    case PlayVideo(n) => PlayVideo(Trim(n))
    case PlaySong(n) => PlaySong(Trim(n))
  }

  // ------------------------------------------------------------ scanning

  /** Splits `s` at the first `c`, provided at least one character precedes it:
      the shape of `([^c]+)c` (with any `\s*` before the group folded into it). */
  function Cut(s: string, c: char): (r: Option<(string, string)>)
    ensures r.Some? ==> s == r.value.0 + [c] + r.value.1 && r.value.0 != [] && c !in r.value.0
    ensures r.None? ==> c !in s || s[0] == c
  {
    if c !in s || s[0] == c then None
    else
      var j := FirstIndex(s, c);
      assert s == s[..j] + [c] + s[j + 1..];
      Some((s[..j], s[j + 1..]))
  }

  function FirstIndex(s: string, c: char): (j: nat)
    requires c in s
    ensures j < |s| && s[j] == c && c !in s[..j]
  {
    if s[0] == c then 0 else 1 + FirstIndex(s[1..], c)
  }

  lemma {:induction false} FirstIndexPlain(x: string, c: char, y: string)
    requires c !in x
    ensures c in x + [c] + y && FirstIndex(x + [c] + y, c) == |x|
  {
    var s := x + [c] + y;
    assert s[|x|] == c;
    if x != [] {
      assert s[0] == x[0];
      assert s[1..] == x[1..] + [c] + y;
      FirstIndexPlain(x[1..], c, y);
    }
  }

  lemma CutPlain(x: string, c: char, y: string)
    requires x != [] && c !in x
    ensures Cut(x + [c] + y, c) == Some((x, y))
  {
    var s := x + [c] + y;
    FirstIndexPlain(x, c, y);
    assert s[0] == x[0];
    assert s[..|x|] == x;
    assert s[|x| + 1..] == y;
  }

  /** The group `([^|\]]+)` followed by either `|` or `]`: the part before the first
      of the two, which of them it was, and what follows it. */
  function CutEither(s: string): (r: Option<(string, char, string)>)
    ensures r.Some? ==> s == r.value.0 + [r.value.1] + r.value.2 && r.value.0 != []
    ensures r.Some? ==> (r.value.1 == '|' || r.value.1 == ']') && '|' !in r.value.0 && ']' !in r.value.0
  {
    if s == [] || s[0] == '|' || s[0] == ']' then None
    else if '|' !in s[1..] && ']' !in s[1..] then None
    else
      var rest := CutEither(s[1..]);
      if rest.Some? then
        Some(([s[0]] + rest.value.0, rest.value.1, rest.value.2))
      else
        var sep := s[1];
        assert s == [s[0]] + [sep] + s[2..];
        Some(([s[0]], sep, s[2..]))
  }

  lemma {:induction false} CutEitherPlain(x: string, c: char, y: string)
    requires x != [] && '|' !in x && ']' !in x && (c == '|' || c == ']')
    ensures CutEither(x + [c] + y) == Some((x, c, y))
  {
    var s := x + [c] + y;
    assert s[0] == x[0];
    assert s[1..] == x[1..] + [c] + y;
    assert c in s[1..] by { assert s[1..][|x| - 1] == c; }
    if |x| == 1 {
      assert s[1..] == [c] + y;
      CutEitherFront(c, y);
      assert s[1] == c && s[2..] == y;
      assert [s[0]] == x;
    } else {
      CutEitherPlain(x[1..], c, y);
      assert [s[0]] + x[1..] == x;
    }
  }

  lemma CutEitherFront(c: char, y: string)
    requires c == '|' || c == ']'
    ensures CutEither([c] + y) == None
  {}

  /** `s` starts with the tag of `k`. */
  predicate Opens(s: string, k: Kind) {
    |Tag(k)| <= |s| && s[..|Tag(k)|] == Tag(k)
  }

  /** The code-stripping pattern `\[KIND:[^\]]+\]` at the start of `s`: what follows the code. */
  function CodeRest(s: string, k: Kind): (r: Option<string>)
    ensures r.Some? ==> |r.value| < |s| && Opens(s, k)
  {
    if !Opens(s, k) then None
    else match Cut(s[|Tag(k)|..], ']')
      case None => None
      case Some((_, rest)) => Some(rest)
  }

  /** The parsing pattern of kind `k` at the start of `s`: the record and what follows the code.
      SET_REMINDER, PLAY_VIDEO, PLAY_SONG: `\[KIND:\s*([^\]]+)\]`;
      WHATSAPP_LINK, CALL: `\[KIND:\s*([^|]+)\|([^\]]+)\]`;
      TRANSLATE: `\[TRANSLATE:\s*([^|]+)\|([^|\]]+)(?:\|([^\]]+))?\]`.
      Every group is trimmed, which also discards what `\s*` would have consumed. */
  function MatchAt(s: string, k: Kind): (r: Option<(Action, string)>)
    ensures r.Some? ==> |r.value.1| < |s| && r.value.0.KindOf() == k && Opens(s, k)
  {
    if !Opens(s, k) then None
    else
      var body := s[|Tag(k)|..];
      match k
      case ReminderKind => OneField(body, k)
      case VideoKind => OneField(body, k)
      case SongKind => OneField(body, k)
      case WhatsAppKind => TwoFields(body, k)
      case CallKind => TwoFields(body, k)
      case TranslateKind => TranslateFields(body)
  }

  function OneField(body: string, k: Kind): (r: Option<(Action, string)>)
    requires k == ReminderKind || k == VideoKind || k == SongKind
    ensures r.Some? ==> |r.value.1| < |body| && r.value.0.KindOf() == k
  {
    match Cut(body, ']')
    case None => None
    case Some((f, rest)) =>
      Some((OneFieldAction(k, Trim(f)), rest))
  }

  function OneFieldAction(k: Kind, v: string): (a: Action)
    requires k == ReminderKind || k == VideoKind || k == SongKind
    ensures a.KindOf() == k
  {
    if k == ReminderKind then SetReminder(v) else if k == VideoKind then PlayVideo(v) else PlaySong(v)
  }

  function TwoFields(body: string, k: Kind): (r: Option<(Action, string)>)
    requires k == WhatsAppKind || k == CallKind
    ensures r.Some? ==> |r.value.1| < |body| && r.value.0.KindOf() == k
  {
    match Cut(body, '|')
    case None => None
    case Some((f1, r1)) =>
      match Cut(r1, ']')
      case None => None
      case Some((f2, rest)) =>
        Some((if k == WhatsAppKind then WhatsAppLink(Trim(f1), Trim(f2)) else Call(Trim(f1), Trim(f2)), rest))
  }

  function TranslateFields(body: string): (r: Option<(Action, string)>)
    ensures r.Some? ==> |r.value.1| < |body| && r.value.0.KindOf() == TranslateKind
  {
    match Cut(body, '|')
    case None => None
    case Some((f1, r1)) =>
      match CutEither(r1)
      case None => None
      case Some((f2, sep, r2)) =>
        if sep == ']' then Some((Translate(Trim(f1), Trim(f2), false), r2))
        else
          match Cut(r2, ']')
          case None => None
          case Some((f3, rest)) => Some((Translate(Trim(f1), Trim(f2), Trim(f3) == "oral"), rest))
  }

  /** Every record of kind `k`, left to right, restarting after each match: a global `exec` loop. */
  function Scan(s: string, k: Kind): seq<Action>
    decreases |s|
  {
    if s == [] then []
    else match MatchAt(s, k)
      case Some((a, rest)) => [a] + Scan(rest, k)
      case None => Scan(s[1..], k)
  }

  /** One `exec` of a global pattern: the leftmost match in `s`, and the text after it. */
  function Exec(s: string, k: Kind): (r: Option<(Action, string)>)
    ensures r.Some? ==> |r.value.1| < |s| && Scan(s, k) == [r.value.0] + Scan(r.value.1, k)
    ensures r.None? ==> Scan(s, k) == []
    decreases |s|
  {
    if s == [] then None
    else match MatchAt(s, k)
      case Some(m) => Some(m)
      case None => Exec(s[1..], k)
  }

  /** What `parseActionCodes` returns: the records of each kind, kind by kind. */
  function Parse(s: string): seq<Action> {
    Scan(s, ReminderKind) + Scan(s, WhatsAppKind) + Scan(s, TranslateKind)
      + Scan(s, CallKind) + Scan(s, VideoKind) + Scan(s, SongKind)
  }

  /** One of the six `while ((match = pattern.exec(response)) !== null)` loops. */
  method CollectKind(response: string, k: Kind) returns (found: seq<Action>)
    ensures found == Scan(response, k)
  {
    found := [];
    var rest := response;
    while true
      invariant found + Scan(rest, k) == Scan(response, k)
      decreases |rest|
    {
      var m := Exec(rest, k);
      if m.None? {
        break;
      }
      found := found + [m.value.0];
      rest := m.value.1;
    }
  }

  /** `parseActionCodes`. */
  method ParseActionCodes(response: string) returns (actions: seq<Action>)
    ensures actions == Parse(response)
  {
    var reminders := CollectKind(response, ReminderKind);
    var links := CollectKind(response, WhatsAppKind);
    var translations := CollectKind(response, TranslateKind);
    var calls := CollectKind(response, CallKind);
    var videos := CollectKind(response, VideoKind);
    var songs := CollectKind(response, SongKind);
    actions := reminders + links + translations + calls + videos + songs;
  }

  // ------------------------------------------------------------ cleaning

  /** `s.replace(/\[KIND:[^\]]+\]/g, '')`. */
  function RemoveCodes(s: string, k: Kind): (r: string)
    ensures |r| <= |s|
    decreases |s|
  {
    if s == [] then []
    else match CodeRest(s, k)
      case Some(rest) => RemoveCodes(rest, k)
      case None => [s[0]] + RemoveCodes(s[1..], k)
  }

  /** The six replacements of `cleanResponse`, in order, before the final trim. */
  function StripCodes(s: string): (r: string)
    ensures |r| <= |s|
  {
    RemoveCodes(RemoveCodes(RemoveCodes(RemoveCodes(RemoveCodes(RemoveCodes(
      s, ReminderKind), WhatsAppKind), TranslateKind), CallKind), VideoKind), SongKind)
  }

  /** `cleanResponse` as written: six global replacements, then `trim`. */
  function CleanResponse(s: string): string {
    Trim(StripCodes(s))
  }

  // ------------------------------------------------------------ WhatsApp link

  /** `phone.replace(/\D/g, '')`. */
  function DigitsOnly(s: string): (r: string)
    ensures forall j :: 0 <= j < |r| ==> IsDigit(r[j])
    ensures |r| <= |s|
  {
    if s == [] then []
    else (if IsDigit(s[0]) then [s[0]] else []) + DigitsOnly(s[1..])
  }

  /** The characters `encodeURIComponent` leaves as they are. */
  predicate IsUnreserved(c: char) {
    IsAsciiLetter(c) || IsDigit(c) || c in "-_.!~*'()"
  }

  function HexDigit(n: nat): (c: char)
    requires n < 16
    ensures IsDigit(c) || 'A' <= c <= 'F'
  {
    if n < 10 then DigitChar(n) else ('A' as int + n - 10) as char
  }

  /** The UTF-8 encoding of one Unicode scalar value. */
  function Utf8(c: char): (bytes: seq<nat>)
    ensures 1 <= |bytes| <= 4
    ensures forall j :: 0 <= j < |bytes| ==> bytes[j] < 256
  {
    var v := c as int;
    if v < 0x80 then [v]
    else if v < 0x800 then [0xC0 + v / 64, 0x80 + v % 64]
    else if v < 0x10000 then [0xE0 + v / 4096, 0x80 + (v / 64) % 64, 0x80 + v % 64]
    else [0xF0 + v / 262144, 0x80 + (v / 4096) % 64, 0x80 + (v / 64) % 64, 0x80 + v % 64]
  }

  function PercentBytes(bytes: seq<nat>): (r: string)
    requires forall j :: 0 <= j < |bytes| ==> bytes[j] < 256
    ensures |r| == 3 * |bytes|
    ensures forall j :: 0 <= j < |r| ==> r[j] == '%' || IsDigit(r[j]) || 'A' <= r[j] <= 'F'
  {
    if bytes == [] then []
    else ['%', HexDigit(bytes[0] / 16), HexDigit(bytes[0] % 16)] + PercentBytes(bytes[1..])
  }

  /** `encodeURIComponent`: unreserved characters stay, every other character becomes
      the percent-escapes of its UTF-8 bytes. */
  function EncodeUriComponent(s: string): (r: string)
    ensures forall j :: 0 <= j < |r| ==> IsUnreserved(r[j]) || r[j] == '%' || 'A' <= r[j] <= 'F'
    ensures |r| >= |s|
  {
    if s == [] then []
    else (if IsUnreserved(s[0]) then [s[0]] else PercentBytes(Utf8(s[0]))) + EncodeUriComponent(s[1..])
  }

  /** `generateWhatsAppLink`. */
  function WhatsAppUrl(phone: string, message: string): string {
    "https://wa.me/" + DigitsOnly(phone) + "?text=" + EncodeUriComponent(message)
  }

  /** Text made only of unreserved characters is passed through unchanged. */
  lemma {:induction false} EncodeUnreserved(s: string)
    requires forall j :: 0 <= j < |s| ==> IsUnreserved(s[j])
    ensures EncodeUriComponent(s) == s
  {
    if s != [] {
      EncodeUnreserved(s[1..]);
      assert [s[0]] + s[1..] == s;
    }
  }

  /** Encoding works character by character, so it distributes over concatenation. */
  lemma {:induction false} EncodeAppend(s: string, t: string)
    ensures EncodeUriComponent(s + t) == EncodeUriComponent(s) + EncodeUriComponent(t)
  {
    if s == [] {
      assert s + t == t;
    } else {
      assert (s + t)[1..] == s[1..] + t;
      assert (s + t)[0] == s[0];
      EncodeAppend(s[1..], t);
    }
  }

  /** A phone number that is already all digits is used in the link as it is. */
  lemma {:induction false} DigitsOnlyKeeps(s: string)
    requires forall j :: 0 <= j < |s| ==> IsDigit(s[j])
    ensures DigitsOnly(s) == s
  {
    if s != [] {
      DigitsOnlyKeeps(s[1..]);
      assert [s[0]] + s[1..] == s;
    }
  }

  /** Removing non-digits works character by character: a digit stays, anything else goes. */
  lemma DigitsOnlyChar(c: char)
    ensures DigitsOnly([c]) == if IsDigit(c) then [c] else []
  {
    assert [c][1..] == [];
  }

  /** so it distributes over concatenation. */
  lemma {:induction false} DigitsOnlyAppend(s: string, t: string)
    ensures DigitsOnly(s + t) == DigitsOnly(s) + DigitsOnly(t)
  {
    if s == [] {
      assert s + t == t;
    } else {
      assert (s + t)[1..] == s[1..] + t;
      assert (s + t)[0] == s[0];
      DigitsOnlyAppend(s[1..], t);
    }
  }

  lemma EncodedParamSafe(message: string)
    ensures forall c :: c in EncodeUriComponent(message) ==> c != '&' && c != '#' && c != ' ' && c != '?'
  {}

  /** The link is `https://wa.me/`, the digits of the phone, `?text=` and the encoded
      message: the phone part ends at the first `?`, and nothing in the encoded text can
      end the parameter (`&`), start a fragment (`#`) or break the URL (a space). */
  lemma WhatsAppUrlShape(phone: string, message: string)
    ensures var url := WhatsAppUrl(phone, message);
      var e := 14 + |DigitsOnly(phone)|;
      e + 6 <= |url| && url[..14] == "https://wa.me/" && url[14..e] == DigitsOnly(phone)
      && url[e..e + 6] == "?text=" && url[e + 6..] == EncodeUriComponent(message)
      && forall k :: 14 <= k < e ==> url[k] != '?'
    ensures forall c :: c in EncodeUriComponent(message) ==> c != '&' && c != '#' && c != ' ' && c != '?'
  {
    EncodedParamSafe(message);
    var d := DigitsOnly(phone);
    var url := WhatsAppUrl(phone, message);
    assert url == "https://wa.me/" + d + "?text=" + EncodeUriComponent(message);
    forall k | 14 <= k < 14 + |d| ensures url[k] != '?' {
      assert url[k] == d[k - 14];
    }
  }

  /** The test's number `+1234567890` dials as `1234567890`. */
  lemma TestPhoneDigits(phone: string)
    requires phone == "+1234567890"
    ensures DigitsOnly(phone) == "1234567890"
  {
    var d := phone[1..];
    assert phone == "+" + d;
    assert d == "1234567890";
    DigitsOnlyKeeps(d);
    DigitsOnlyChar('+');
    DigitsOnlyAppend("+", d);
  }

  /** Encoding a space gives `%20`. */
  lemma EncodeSpace(sp: string)
    requires sp == " "
    ensures EncodeUriComponent(sp) == "%20"
  {
    assert Utf8(' ') == [32];
    assert PercentBytes([32]) == ['%', HexDigit(2), HexDigit(0)] + PercentBytes([]);
    assert sp[1..] == [];
  }

  lemma EncodeTestWords(hey: string, there: string)
    requires hey == "Hey" && there == "there!"
    ensures EncodeUriComponent(hey) == hey && EncodeUriComponent(there) == there
  {
    EncodeUnreserved(hey);
    EncodeUnreserved(there);
  }

  /** The test's message `Hey there!` encodes as `Hey%20there!`. */
  lemma EncodeTestMessage(message: string)
    requires message == "Hey there!"
    ensures EncodeUriComponent(message) == "Hey%20there!"
  {
    var hey, sp, there := message[..3], message[3..4], message[4..];
    assert hey == "Hey" && sp == " " && there == "there!";
    assert message == hey + (sp + there);
    EncodeSpace(sp);
    EncodeTestWords(hey, there);
    EncodeAppend(hey, sp + there);
    EncodeAppend(sp, there);
    assert EncodeUriComponent(message) == hey + ("%20" + there);
    JoinTestWords(hey, there);
  }

  lemma JoinTestWords(hey: string, there: string)
    requires hey == "Hey" && there == "there!"
    ensures hey + ("%20" + there) == "Hey%20there!"
  {}

  /** The link for the test's WhatsApp message. */
  lemma TestWhatsAppLink(phone: string, message: string)
    requires phone == "+1234567890" && message == "Hey there!"
    ensures WhatsAppUrl(phone, message) == "https://wa.me/1234567890?text=Hey%20there!"
  {
    TestPhoneDigits(phone);
    EncodeTestMessage(message);
  }

  // ------------------------------------------------------------ properties

  /** A string that differs from a tag anywhere within the tag's length does not open a code. */
  lemma NotOpensAt(s: string, k: Kind, d: nat)
    requires d < |Tag(k)| && d < |s| && s[d] != Tag(k)[d]
    ensures !Opens(s, k)
  {
    if |Tag(k)| <= |s| {
      assert s[..|Tag(k)|][d] == s[d];
    }
  }

  lemma NoMatchAt(s: string, k: Kind)
    requires !Opens(s, k)
    ensures MatchAt(s, k).None? && CodeRest(s, k).None?
  {}

  lemma TagPlain(k: Kind)
    ensures forall j :: 1 <= j < |Tag(k)| ==> Tag(k)[j] != '[' && Tag(k)[j] != ']'
  {}

  /** Two different kinds never open at the same place. */
  lemma TagsDiffer(s: string, k1: Kind, k2: Kind)
    requires k1 != k2 && Opens(s, k1)
    ensures !Opens(s, k2)
  {
    var d := if (k1 == VideoKind && k2 == SongKind) || (k1 == SongKind && k2 == VideoKind) then 6 else 1;
    assert s[..|Tag(k1)|][d] == s[d];
    NotOpensAt(s, k2, d);
  }

  lemma {:induction false} ScanSkipPlain(t: string, rest: string, k: Kind)
    requires '[' !in t
    ensures Scan(t + rest, k) == Scan(rest, k)
  {
    if t == [] {
      assert t + rest == rest;
    } else {
      var s := t + rest;
      assert s[0] == t[0];
      NotOpensAt(s, k, 0);
      NoMatchAt(s, k);
      assert s[1..] == t[1..] + rest;
      assert '[' !in t[1..] by { assert forall j :: 0 <= j < |t| - 1 ==> t[1..][j] == t[j + 1]; }
      ScanSkipPlain(t[1..], rest, k);
    }
  }

  lemma {:induction false} RemoveSkipPlain(t: string, rest: string, k: Kind)
    requires '[' !in t
    ensures RemoveCodes(t + rest, k) == t + RemoveCodes(rest, k)
  {
    if t == [] {
      assert t + rest == rest;
    } else {
      var u := t[1..] + rest;
      assert t + rest == [t[0]] + u;
      assert '[' !in t[1..] by { assert forall j :: 0 <= j < |t| - 1 ==> t[1..][j] == t[j + 1]; }
      RemoveSkipPlain(t[1..], rest, k);
      RemoveCons(t[0], u, k);
      ConsSplit(t, RemoveCodes(rest, k));
    }
  }

  lemma RemoveStep(s: string, k: Kind)
    requires s != [] && CodeRest(s, k).None?
    ensures RemoveCodes(s, k) == [s[0]] + RemoveCodes(s[1..], k)
  {}

  lemma RemoveCons(c: char, u: string, k: Kind)
    requires c != '['
    ensures RemoveCodes([c] + u, k) == [c] + RemoveCodes(u, k)
  {
    var s := [c] + u;
    NotOpensAt(s, k, 0);
    NoMatchAt(s, k);
    assert s[1..] == u;
  }

  lemma InnerPlain(a: Action)
    requires Encodable(a)
    ensures Inner(a) != [] && Inner(a)[0] == ' ' && '[' !in Inner(a) && ']' !in Inner(a)
  {}

  /** An encoded action opens with its tag, and no other `[` follows. */
  lemma EncodeShape(a: Action, rest: string)
    requires Encodable(a)
    ensures Opens(Encode(a) + rest, a.KindOf())
    ensures (Encode(a) + rest)[|Tag(a.KindOf())|..] == Inner(a) + [']'] + rest
    ensures (Encode(a) + rest)[0] == '[' && (Encode(a) + rest)[1..] == Encode(a)[1..] + rest
    ensures '[' !in Encode(a)[1..]
  {
    var t := Tag(a.KindOf());
    var s := Encode(a) + rest;
    assert s == t + (Inner(a) + [']'] + rest);
    assert s[..|t|] == t;
    InnerPlain(a);
    TagPlain(a.KindOf());
    var e := Encode(a);
    forall j | 0 <= j < |e| - 1 ensures e[1..][j] != '[' {
      if j + 1 < |t| {
        assert e[j + 1] == t[j + 1];
      } else if j + 1 < |t| + |Inner(a)| {
        assert e[j + 1] == Inner(a)[j + 1 - |t|];
      }
    }
  }

  /** Parsing the code an action encodes to yields that action with its fields trimmed,
      and parsing resumes right after its closing `]`. */
  lemma MatchEncoded(a: Action, rest: string)
    requires Encodable(a)
    ensures MatchAt(Encode(a) + rest, a.KindOf()) == Some((Normalize(a), rest))
  {
    EncodeShape(a, rest);
    var body := Inner(a) + [']'] + rest;
    match a
    case SetReminder(_) => FieldsOne(a, rest);
    case PlayVideo(_) => FieldsOne(a, rest);
    case PlaySong(_) => FieldsOne(a, rest);
    case WhatsAppLink(_, _) => FieldsTwo(a, rest);
    case Call(_, _) => FieldsTwo(a, rest);
    case Translate(_, _, _) => FieldsTranslate(a, rest);
  }

  lemma FieldsOne(a: Action, rest: string)
    requires Encodable(a) && (a.SetReminder? || a.PlayVideo? || a.PlaySong?)
    ensures OneField(Inner(a) + [']'] + rest, a.KindOf()) == Some((Normalize(a), rest))
  {
    var d := if a.SetReminder? then a.datetime else if a.PlayVideo? then a.videoName else a.songName;
    assert Inner(a) == [' '] + d;
    assert Normalize(a) == OneFieldAction(a.KindOf(), Trim(d));
    FieldOne(d, rest, a.KindOf());
  }

  lemma FieldOne(d: string, rest: string, k: Kind)
    requires ']' !in d && (k == ReminderKind || k == VideoKind || k == SongKind)
    ensures OneField([' '] + d + [']'] + rest, k) == Some((OneFieldAction(k, Trim(d)), rest))
  {
    CutPlain([' '] + d, ']', rest);
    TrimPrependSpace(' ', d);
  }

  lemma FieldsTwo(a: Action, rest: string)
    requires Encodable(a) && (a.WhatsAppLink? || a.Call?)
    ensures TwoFields(Inner(a) + [']'] + rest, a.KindOf()) == Some((Normalize(a), rest))
  {
    var (p, m) := match a case WhatsAppLink(p, m) => (p, m) case Call(p, c) => (p, c);
    assert Inner(a) + [']'] + rest == (" " + p) + ['|'] + (m + [']'] + rest);
    CutPlain(" " + p, '|', m + [']'] + rest);
    CutPlain(m, ']', rest);
    TrimPrependSpace(' ', p);
  }

  lemma FieldsTranslate(a: Action, rest: string)
    requires Encodable(a) && a.Translate?
    ensures TranslateFields(Inner(a) + [']'] + rest) == Some((Normalize(a), rest))
  {
    var l, t := a.language, a.text;
    if a.oral {
      assert Inner(a) + [']'] + rest == [' '] + l + ['|'] + t + ['|'] + ("oral" + [']'] + rest);
      FieldsOral(l, t, rest);
    } else {
      assert Inner(a) + [']'] + rest == [' '] + l + ['|'] + t + [']'] + rest;
      FieldsNotOral(l, t, rest);
    }
  }

  lemma FieldsOral(l: string, t: string, rest: string)
    requires Plain(l) && Plain(t) && '|' !in l && '|' !in t && t != []
    ensures TranslateFields([' '] + l + ['|'] + t + ['|'] + ("oral" + [']'] + rest)) == Some((Translate(Trim(l), Trim(t), true), rest))
  {
    var w := [' '] + l;
    var r2 := "oral" + [']'] + rest;
    var r1 := t + ['|'] + r2;
    Regroup(w, t, r2);
    CutPlain(w, '|', r1);
    CutEitherPlain(t, '|', r2);
    OralFlag(rest);
    TrimPrependSpace(' ', l);
    TranslateThree(w + ['|'] + r1, w, r1, t, r2, "oral", rest);
  }

  lemma Regroup(w: string, t: string, r: string)
    ensures w + ['|'] + t + ['|'] + r == w + ['|'] + (t + ['|'] + r)
  {}

  /** The three-field form of the TRANSLATE pattern, once its three cuts are known. */
  lemma TranslateThree(body: string, f1: string, r1: string, f2: string, r2: string, f3: string, rest: string)
    requires Cut(body, '|') == Some((f1, r1)) && CutEither(r1) == Some((f2, '|', r2))
    requires Cut(r2, ']') == Some((f3, rest))
    ensures TranslateFields(body) == Some((Translate(Trim(f1), Trim(f2), Trim(f3) == "oral"), rest))
  {}

  lemma OralFlag(rest: string)
    ensures Cut("oral" + [']'] + rest, ']') == Some(("oral", rest)) && Trim("oral") == "oral"
  {
    CutPlain("oral", ']', rest);
    TrimTrimmed("oral");
  }

  lemma FieldsNotOral(l: string, t: string, rest: string)
    requires Plain(l) && Plain(t) && '|' !in l && '|' !in t && t != []
    ensures TranslateFields([' '] + l + ['|'] + t + [']'] + rest) == Some((Translate(Trim(l), Trim(t), false), rest))
  {
    assert [' '] + l + ['|'] + t + [']'] + rest == ([' '] + l) + ['|'] + (t + [']'] + rest);
    CutPlain([' '] + l, '|', t + [']'] + rest);
    CutEitherPlain(t, ']', rest);
    TrimPrependSpace(' ', l);
  }

  /** Scanning for one kind over an encoded action: the action is found when it is of
      that kind, and skipped otherwise. */
  lemma ScanEncoded(a: Action, rest: string, k: Kind)
    requires Encodable(a)
    ensures Scan(Encode(a) + rest, k) == (if a.KindOf() == k then [Normalize(a)] else []) + Scan(rest, k)
  {
    EncodeShape(a, rest);
    var s := Encode(a) + rest;
    if a.KindOf() == k {
      MatchEncoded(a, rest);
    } else {
      TagsDiffer(s, a.KindOf(), k);
      ScanSkipPlain(Encode(a)[1..], rest, k);
    }
  }

  /** The codes of a sequence of actions, one after the other. */
  function EncodeAll(acts: seq<Action>): string {
    if acts == [] then [] else Encode(acts[0]) + EncodeAll(acts[1..])
  }

  predicate AllEncodable(acts: seq<Action>) {
    forall j :: 0 <= j < |acts| ==> Encodable(acts[j])
  }

  /** The actions of kind `k`, in order, with their fields trimmed. */
  function OfKind(acts: seq<Action>, k: Kind): seq<Action> {
    if acts == [] then []
    else (if acts[0].KindOf() == k then [Normalize(acts[0])] else []) + OfKind(acts[1..], k)
  }

  function Without(acts: seq<Action>, k: Kind): seq<Action> {
    if acts == [] then []
    else (if acts[0].KindOf() == k then [] else [acts[0]]) + Without(acts[1..], k)
  }

  lemma {:induction false} ScanEncodedAll(acts: seq<Action>, k: Kind)
    requires AllEncodable(acts)
    ensures Scan(EncodeAll(acts), k) == OfKind(acts, k)
  {
    if acts != [] {
      ScanEncoded(acts[0], EncodeAll(acts[1..]), k);
      assert AllEncodable(acts[1..]) by {
        forall j | 0 <= j < |acts| - 1 ensures Encodable(acts[1..][j]) { assert acts[1..][j] == acts[j + 1]; }
      }
      ScanEncodedAll(acts[1..], k);
    }
  }

  /** The parse half of the round trip: after text without `[`, the codes of any
      encodable actions parse back to those actions, fields trimmed, grouped kind by
      kind in the fixed kind order and in order of appearance within a kind. */
  lemma ParseEncodedAll(q: string, acts: seq<Action>)
    requires '[' !in q && AllEncodable(acts)
    ensures Parse(q + EncodeAll(acts)) ==
      OfKind(acts, ReminderKind) + OfKind(acts, WhatsAppKind) + OfKind(acts, TranslateKind)
        + OfKind(acts, CallKind) + OfKind(acts, VideoKind) + OfKind(acts, SongKind)
  {
    forall k ensures Scan(q + EncodeAll(acts), k) == OfKind(acts, k) {
      ScanSkipPlain(q, EncodeAll(acts), k);
      ScanEncodedAll(acts, k);
    }
  }

  /** A reply carrying one code parses to exactly that one record. */
  lemma ParseEncoded(q: string, a: Action)
    requires '[' !in q && Encodable(a)
    ensures Parse(q + Encode(a)) == [Normalize(a)]
  {
    ScanOneEncoded(q, a);
    ParseOne(q + Encode(a), a.KindOf(), Normalize(a));
  }

  /** Plain text followed by one code: the pattern of the code's kind finds it, no other
      pattern finds anything. */
  lemma ScanOneEncoded(q: string, a: Action)
    requires '[' !in q && Encodable(a)
    ensures forall k :: Scan(q + Encode(a), k) == if k == a.KindOf() then [Normalize(a)] else []
  {
    forall k ensures Scan(q + Encode(a), k) == if k == a.KindOf() then [Normalize(a)] else [] {
      ScanSkipPlain(q, Encode(a), k);
      assert Encode(a) + [] == Encode(a);
      ScanEncoded(a, [], k);
    }
  }

  /** Text in which only the pattern of kind `k` matches, and once, parses to that match. */
  lemma ParseOne(s: string, k: Kind, x: Action)
    requires forall j :: Scan(s, j) == if j == k then [x] else []
    ensures Parse(s) == [x]
  {
    var none: seq<Action> := [];
    assert Scan(s, ReminderKind) == if ReminderKind == k then [x] else none;
    assert Scan(s, WhatsAppKind) == if WhatsAppKind == k then [x] else none;
    assert Scan(s, TranslateKind) == if TranslateKind == k then [x] else none;
    assert Scan(s, CallKind) == if CallKind == k then [x] else none;
    assert Scan(s, VideoKind) == if VideoKind == k then [x] else none;
    assert Scan(s, SongKind) == if SongKind == k then [x] else none;
  }

  /** Text without `[` holds no code at all. */
  lemma ParsePlain(q: string)
    requires '[' !in q
    ensures Parse(q) == [] && CleanResponse(q) == Trim(q)
  {
    ParseEncodedAll(q, []);
    assert q + EncodeAll([]) == q;
    forall k ensures RemoveCodes(q, k) == q {
      RemoveSkipPlain(q, [], k);
    }
  }

  /** Removing the codes of one kind from an encoded action: the code goes when it is
      of that kind, and stays intact otherwise. */
  lemma RemoveEncoded(a: Action, rest: string, k: Kind)
    requires Encodable(a)
    ensures a.KindOf() == k ==> RemoveCodes(Encode(a) + rest, k) == RemoveCodes(rest, k)
    ensures a.KindOf() != k ==> RemoveCodes(Encode(a) + rest, k) == Encode(a) + RemoveCodes(rest, k)
  {
    EncodeShape(a, rest);
    var s := Encode(a) + rest;
    if a.KindOf() == k {
      InnerPlain(a);
      CutPlain(Inner(a), ']', rest);
      assert CodeRest(s, k) == Some(rest);
    } else {
      TagsDiffer(s, a.KindOf(), k);
      NoMatchAt(s, k);
      RemoveStep(s, k);
      RemoveSkipPlain(Encode(a)[1..], rest, k);
      ConsSplit(Encode(a), RemoveCodes(rest, k));
    }
  }

  lemma {:induction false} RemoveEncodedAll(q: string, acts: seq<Action>, k: Kind)
    requires '[' !in q && AllEncodable(acts)
    ensures RemoveCodes(q + EncodeAll(acts), k) == q + EncodeAll(Without(acts, k))
  {
    RemoveSkipPlain(q, EncodeAll(acts), k);
    RemoveEncodedSeq(acts, k);
  }

  lemma {:induction false} RemoveEncodedSeq(acts: seq<Action>, k: Kind)
    requires AllEncodable(acts)
    ensures RemoveCodes(EncodeAll(acts), k) == EncodeAll(Without(acts, k))
  {
    if acts != [] {
      var a, tl := acts[0], acts[1..];
      assert EncodeAll(acts) == Encode(a) + EncodeAll(tl);
      RemoveEncoded(a, EncodeAll(tl), k);
      AllEncodableTail(acts);
      RemoveEncodedSeq(tl, k);
      if a.KindOf() == k {
        assert Without(acts, k) == Without(tl, k);
      } else {
        assert Without(acts, k) == [a] + Without(tl, k);
        EncodeAllCons(a, Without(tl, k));
      }
    }
  }

  lemma EncodeAllCons(a: Action, w: seq<Action>)
    ensures EncodeAll([a] + w) == Encode(a) + EncodeAll(w)
  {
    assert ([a] + w)[1..] == w;
  }

  lemma AllEncodableTail(acts: seq<Action>)
    requires acts != [] && AllEncodable(acts)
    ensures AllEncodable(acts[1..])
  {
    forall j | 0 <= j < |acts| - 1 ensures Encodable(acts[1..][j]) {
      assert acts[1..][j] == acts[j + 1];
    }
  }

  lemma {:induction false} WithoutEncodable(acts: seq<Action>, k: Kind)
    requires AllEncodable(acts)
    ensures AllEncodable(Without(acts, k))
  {
    if acts != [] {
      AllEncodableTail(acts);
      WithoutEncodable(acts[1..], k);
      if acts[0].KindOf() != k {
        var w := Without(acts[1..], k);
        assert Without(acts, k) == [acts[0]] + w;
        forall j | 0 <= j < |w| + 1 ensures Encodable(([acts[0]] + w)[j]) {
          if j > 0 {
            assert ([acts[0]] + w)[j] == w[j - 1];
          }
        }
      }
    }
  }

  /** The actions that survive removing every kind in turn: none. */
  function WithoutAll(acts: seq<Action>): seq<Action> {
    Without(Without(Without(Without(Without(Without(
      acts, ReminderKind), WhatsAppKind), TranslateKind), CallKind), VideoKind), SongKind)
  }

  lemma WithoutCons(a: Action, w: seq<Action>, k: Kind)
    ensures Without([a] + w, k) == if a.KindOf() == k then Without(w, k) else [a] + Without(w, k)
  {
    assert ([a] + w)[0] == a;
    assert ([a] + w)[1..] == w;
  }

  lemma WithoutAllCons(a: Action, w: seq<Action>)
    ensures WithoutAll([a] + w) == WithoutAll(w)
  {
    var w1 := Without(w, ReminderKind);
    var w2 := Without(w1, WhatsAppKind);
    var w3 := Without(w2, TranslateKind);
    var w4 := Without(w3, CallKind);
    var w5 := Without(w4, VideoKind);
    WithoutCons(a, w, ReminderKind);
    if a.KindOf() != ReminderKind {
      WithoutCons(a, w1, WhatsAppKind);
      if a.KindOf() != WhatsAppKind {
        WithoutCons(a, w2, TranslateKind);
        if a.KindOf() != TranslateKind {
          WithoutCons(a, w3, CallKind);
          if a.KindOf() != CallKind {
            WithoutCons(a, w4, VideoKind);
            if a.KindOf() != VideoKind {
              WithoutCons(a, w5, SongKind);
            }
          }
        }
      }
    }
  }

  lemma {:induction false} WithoutAllEmpty(acts: seq<Action>)
    ensures WithoutAll(acts) == []
  {
    if acts != [] {
      assert acts == [acts[0]] + acts[1..];
      WithoutAllCons(acts[0], acts[1..]);
      WithoutAllEmpty(acts[1..]);
    }
  }

  /** The clean half of the round trip: after text without `[`, all codes of encodable
      actions are removed and only the trimmed text remains. */
  lemma CleanEncodedAll(q: string, acts: seq<Action>)
    requires '[' !in q && AllEncodable(acts)
    ensures CleanResponse(q + EncodeAll(acts)) == Trim(q)
  {
    var a1 := Without(acts, ReminderKind);
    WithoutEncodable(acts, ReminderKind);
    var a2 := Without(a1, WhatsAppKind);
    WithoutEncodable(a1, WhatsAppKind);
    var a3 := Without(a2, TranslateKind);
    WithoutEncodable(a2, TranslateKind);
    var a4 := Without(a3, CallKind);
    WithoutEncodable(a3, CallKind);
    var a5 := Without(a4, VideoKind);
    WithoutEncodable(a4, VideoKind);
    RemoveEncodedAll(q, acts, ReminderKind);
    RemoveEncodedAll(q, a1, WhatsAppKind);
    RemoveEncodedAll(q, a2, TranslateKind);
    RemoveEncodedAll(q, a3, CallKind);
    RemoveEncodedAll(q, a4, VideoKind);
    RemoveEncodedAll(q, a5, SongKind);
    WithoutAllEmpty(acts);
    assert q + EncodeAll([]) == q;
  }

  lemma CleanEncoded(q: string, a: Action)
    requires '[' !in q && Encodable(a)
    ensures CleanResponse(q + Encode(a)) == Trim(q)
  {
    assert EncodeAll([a]) == Encode(a) + [];
    assert [a][1..] == [];
    assert q + Encode(a) == q + EncodeAll([a]);
    CleanEncodedAll(q, [a]);
  }
  // ------------------------------------------------------------ cleaning to a fixpoint

  /** `s` holds, somewhere, a code that the stripping pattern of kind `k` removes. */
  ghost predicate HasCode(s: string, k: Kind) {
    exists j :: 0 <= j < |s| && CodeRest(s[j..], k).Some?
  }

  /** No stripping pattern finds anything in `s`. */
  ghost predicate CodeFree(s: string) {
    forall k :: !HasCode(s, k)
  }

  lemma {:induction false} RemoveShrinks(s: string, k: Kind, j: nat)
    requires j < |s| && CodeRest(s[j..], k).Some?
    ensures |RemoveCodes(s, k)| < |s|
  {
    if CodeRest(s, k).None? {
      assert s[0..] == s;
      RemoveStep(s, k);
      assert s[1..][j - 1..] == s[j..];
      RemoveShrinks(s[1..], k, j - 1);
    }
  }

  lemma {:induction false} RemoveCodeFree(s: string, k: Kind)
    requires !HasCode(s, k)
    ensures RemoveCodes(s, k) == s
  {
    if s != [] {
      assert s[0..] == s;
      RemoveStep(s, k);
      forall j | 0 <= j < |s| - 1 ensures CodeRest(s[1..][j..], k).None? {
        assert s[1..][j..] == s[j + 1..];
      }
      RemoveCodeFree(s[1..], k);
      assert [s[0]] + s[1..] == s;
    }
  }

  /** The replacement for kind `k` changes `s` exactly when `s` holds a code of kind `k`. */
  lemma RemoveCodesChanges(s: string, k: Kind)
    ensures RemoveCodes(s, k) == s <==> !HasCode(s, k)
  {
    if HasCode(s, k) {
      var j :| 0 <= j < |s| && CodeRest(s[j..], k).Some?;
      RemoveShrinks(s, k, j);
    } else {
      RemoveCodeFree(s, k);
    }
  }

  /** The six replacements change nothing exactly when no pattern finds anything, and
      otherwise they shorten the text. */
  lemma StripFixpoint(s: string)
    ensures StripCodes(s) == s <==> CodeFree(s)
    ensures StripCodes(s) != s ==> |StripCodes(s)| < |s|
  {
    if CodeFree(s) {
      StripCodeFree(s);
    } else {
      StripShrinks(s);
    }
  }

  lemma StripCodeFree(s: string)
    requires CodeFree(s)
    ensures StripCodes(s) == s
  {
    RemoveCodeFree(s, ReminderKind);
    RemoveCodeFree(s, WhatsAppKind);
    RemoveCodeFree(s, TranslateKind);
    RemoveCodeFree(s, CallKind);
    RemoveCodeFree(s, VideoKind);
    RemoveCodeFree(s, SongKind);
  }

  lemma StripShrinks(s: string)
    requires !CodeFree(s)
    ensures |StripCodes(s)| < |s|
  {
    var k :| HasCode(s, k);
    var r1 := RemoveCodes(s, ReminderKind);
    var r2 := RemoveCodes(r1, WhatsAppKind);
    var r3 := RemoveCodes(r2, TranslateKind);
    var r4 := RemoveCodes(r3, CallKind);
    var r5 := RemoveCodes(r4, VideoKind);
    if HasCode(s, ReminderKind) {
      RemoveCodesShorten(s, ReminderKind);
      RemoveCodesChanges(s, ReminderKind);
    } else {
      RemoveCodeFree(s, ReminderKind);
      if HasCode(s, WhatsAppKind) {
        RemoveCodesShorten(s, WhatsAppKind);
        RemoveCodesChanges(s, WhatsAppKind);
      } else {
        RemoveCodeFree(s, WhatsAppKind);
        if HasCode(s, TranslateKind) {
          RemoveCodesShorten(s, TranslateKind);
          RemoveCodesChanges(s, TranslateKind);
        } else {
          RemoveCodeFree(s, TranslateKind);
          if HasCode(s, CallKind) {
            RemoveCodesShorten(s, CallKind);
            RemoveCodesChanges(s, CallKind);
          } else {
            RemoveCodeFree(s, CallKind);
            if HasCode(s, VideoKind) {
              RemoveCodesShorten(s, VideoKind);
              RemoveCodesChanges(s, VideoKind);
            } else {
              RemoveCodeFree(s, VideoKind);
              assert k == SongKind;
              RemoveCodesShorten(s, SongKind);
              RemoveCodesChanges(s, SongKind);
            }
          }
        }
      }
    }
  }

  lemma RemoveCodesShorten(s: string, k: Kind)
    ensures RemoveCodes(s, k) != s ==> |RemoveCodes(s, k)| < |s|
  {
    RemoveCodesChanges(s, k);
    if HasCode(s, k) {
      var j :| 0 <= j < |s| && CodeRest(s[j..], k).Some?;
      RemoveShrinks(s, k, j);
    }
  }

  /** A tag followed by a group closed by `]` keeps both when more text follows. */
  lemma TaggedExtend(t: string, u: string, tag: string)
    requires |tag| <= |t| && t[..|tag|] == tag && Cut(t[|tag|..], ']').Some?
    ensures |tag| <= |t + u| && (t + u)[..|tag|] == tag
    ensures Cut((t + u)[|tag|..], ']') ==
              Some((Cut(t[|tag|..], ']').value.0, Cut(t[|tag|..], ']').value.1 + u))
  {
    var n := |tag|;
    assert (t + u)[..n] == t[..n];
    var c := Cut(t[n..], ']');
    var x, r := c.value.0, c.value.1;
    assert (t + u)[n..] == t[n..] + u;
    assert (t + u)[n..] == x + [']'] + (r + u);
    CutPlain(x, ']', r + u);
  }

  /** A code found in a string is still found once more text follows it. */
  lemma CodeExtend(t: string, u: string, k: Kind)
    requires CodeRest(t, k).Some?
    ensures CodeRest(t + u, k) == Some(CodeRest(t, k).value + u)
  {
    TaggedExtend(t, u, Tag(k));
  }

  /** A code inside a slice is a code of the whole string. */
  lemma HasCodeSlice(s: string, a: nat, b: nat, k: Kind)
    requires a <= b <= |s|
    ensures HasCode(s[a..b], k) ==> HasCode(s, k)
  {
    if HasCode(s[a..b], k) {
      var j :| 0 <= j < b - a && CodeRest(s[a..b][j..], k).Some?;
      SliceOfSlice(s, a, b, j);
      SliceSplit(s, a + j, b);
      CodeExtend(s[a + j..b], s[b..], k);
      assert CodeRest(s[a + j..], k).Some?;
    }
  }

  lemma TrimCodeFree(s: string)
    requires CodeFree(s)
    ensures CodeFree(Trim(s))
  {
    TrimShape(s);
    var a, b :| 0 <= a <= b <= |s| && Trim(s) == s[a..b];
    forall k ensures !HasCode(Trim(s), k) {
      HasCodeSlice(s, a, b, k);
    }
  }

  /** Text without `[` holds no code. */
  lemma PlainCodeFree(q: string)
    requires '[' !in q
    ensures CodeFree(q)
  {
    forall k, j | 0 <= j < |q| ensures CodeRest(q[j..], k).None? {
      assert q[j..][0] == q[j];
      NotOpensAt(q[j..], k, 0);
      NoMatchAt(q[j..], k);
    }
  }

  /** `cleanResponse` with the replacements repeated until none of them finds anything. */
  function CleanFully(s: string): (r: string)
    ensures IsTrimmed(r) && CodeFree(r)
    decreases |s|
  {
    var t := StripCodes(s);
    StripFixpoint(s);
    if t == s then
      TrimShape(s);
      TrimCodeFree(s);
      Trim(s)
    else
      CleanFully(t)
  }

  /** Cleaning fully twice is cleaning fully once. */
  lemma CleanFullyIdempotent(s: string)
    ensures CleanFully(CleanFully(s)) == CleanFully(s)
  {
    var r := CleanFully(s);
    StripFixpoint(r);
    TrimTrimmed(r);
  }

  /** Where one round of replacements already leaves nothing to remove, the original
      `cleanResponse` gives the same text. */
  lemma CleanFullyAgrees(s: string)
    requires CodeFree(StripCodes(s))
    ensures CleanFully(s) == CleanResponse(s)
  {
    StripFixpoint(s);
    StripFixpoint(StripCodes(s));
  }

  /** On the replies the assistant builds, both cleaners agree. */
  lemma CleanFullyEncodedAll(q: string, acts: seq<Action>)
    requires '[' !in q && AllEncodable(acts)
    ensures CleanFully(q + EncodeAll(acts)) == Trim(q)
  {
    var s := q + EncodeAll(acts);
    CleanEncodedAll(q, acts);
    RemoveEncodedAll(q, acts, ReminderKind);
    StripIsPrefix(q, acts);
    PlainCodeFree(q);
    CleanFullyAgrees(s);
  }

  lemma StripIsPrefix(q: string, acts: seq<Action>)
    requires '[' !in q && AllEncodable(acts)
    ensures StripCodes(q + EncodeAll(acts)) == q
  {
    var a1 := Without(acts, ReminderKind);
    WithoutEncodable(acts, ReminderKind);
    var a2 := Without(a1, WhatsAppKind);
    WithoutEncodable(a1, WhatsAppKind);
    var a3 := Without(a2, TranslateKind);
    WithoutEncodable(a2, TranslateKind);
    var a4 := Without(a3, CallKind);
    WithoutEncodable(a3, CallKind);
    var a5 := Without(a4, VideoKind);
    WithoutEncodable(a4, VideoKind);
    RemoveEncodedAll(q, acts, ReminderKind);
    RemoveEncodedAll(q, a1, WhatsAppKind);
    RemoveEncodedAll(q, a2, TranslateKind);
    RemoveEncodedAll(q, a3, CallKind);
    RemoveEncodedAll(q, a4, VideoKind);
    RemoveEncodedAll(q, a5, SongKind);
    WithoutAllEmpty(acts);
    assert q + EncodeAll([]) == q;
  }

  // ------------------------------------------------------------ a nested code

  /** A tag broken by another code: removing the inner CALL code joins the outer one. */
  const NestedTail: string := "[CALL:x]REMINDER:y]"
  const Nested: string := "[SET_" + NestedTail
  const Joined: string := "[SET_REMINDER:y]"

  /** Text without `[` passes every replacement unchanged. */
  lemma RemovePlain(t: string, k: Kind)
    requires '[' !in t
    ensures RemoveCodes(t, k) == t
  {
    RemoveSkipPlain(t, [], k);
    assert t + [] == t;
  }

  lemma OpensTag(k: Kind, rest: string)
    ensures Opens(Tag(k) + rest, k) && (Tag(k) + rest)[|Tag(k)|..] == rest
  {
    assert (Tag(k) + rest)[..|Tag(k)|] == Tag(k);
  }

  /** A complete code of kind `k` is removed by the replacement for `k`. */
  lemma RemoveOwnTag(k: Kind, x: string, rest: string)
    requires x != [] && ']' !in x
    ensures RemoveCodes(Tag(k) + x + [']'] + rest, k) == RemoveCodes(rest, k)
  {
    var s := Tag(k) + (x + [']'] + rest);
    assert Tag(k) + x + [']'] + rest == s;
    OpensTag(k, x + [']'] + rest);
    CutPlain(x, ']', rest);
    assert CodeRest(s, k) == Some(rest);
  }

  /** A replacement for another kind leaves a tag and plain text after it alone. */
  lemma RemoveOtherTag(k1: Kind, k: Kind, rest: string)
    requires k1 != k && '[' !in rest
    ensures RemoveCodes(Tag(k1) + rest, k) == Tag(k1) + rest
  {
    var s := Tag(k1) + rest;
    OpensTag(k1, rest);
    TagsDiffer(s, k1, k);
    NoMatchAt(s, k);
    RemoveStep(s, k);
    TagPlain(k1);
    assert '[' !in s[1..] by {
      forall j | 0 <= j < |s| - 1 ensures s[1..][j] != '[' {
        assert s[1..][j] == s[j + 1];
        if j + 1 >= |Tag(k1)| {
          assert s[j + 1] == rest[j + 1 - |Tag(k1)|];
        }
      }
    }
    RemovePlain(s[1..], k);
    assert [s[0]] + s[1..] == s;
  }

  lemma NestedShape()
    ensures Nested[1..] == "SET_" + NestedTail && Nested[0] == '['
    ensures NestedTail == Tag(CallKind) + "x" + [']'] + "REMINDER:y]"
    ensures NestedTail == Tag(CallKind) + "x]REMINDER:y]"
    ensures Joined == Tag(ReminderKind) + "y" + [']'] + []
    ensures Joined == Tag(ReminderKind) + "y]"
    ensures Joined == "[SET_" + "REMINDER:y]"
    ensures IsTrimmed(Joined)
  {}

  /** No kind opens at the front of the nested text. */
  lemma NestedHead(k: Kind)
    ensures RemoveCodes(Nested, k) == "[SET_" + RemoveCodes(NestedTail, k)
  {
    NestedShape();
    NotOpensAt(Nested, k, if k == ReminderKind then 5 else 1);
    NoMatchAt(Nested, k);
    RemoveStep(Nested, k);
    RemoveSkipPlain("SET_", NestedTail, k);
    ConsSplit("[SET_", RemoveCodes(NestedTail, k));
  }

  lemma NestedTailStrip(k: Kind)
    ensures RemoveCodes(NestedTail, k) == if k == CallKind then "REMINDER:y]" else NestedTail
  {
    NestedShape();
    if k == CallKind {
      RemoveOwnTag(CallKind, "x", "REMINDER:y]");
      RemovePlain("REMINDER:y]", k);
    } else {
      RemoveOtherTag(CallKind, k, "x]REMINDER:y]");
    }
  }

  lemma NestedOuter(k: Kind)
    ensures RemoveCodes(Nested, k) == if k == CallKind then Joined else Nested
  {
    NestedShape();
    NestedHead(k);
    NestedTailStrip(k);
  }

  lemma JoinedStrip(k: Kind)
    ensures RemoveCodes(Joined, k) == if k == ReminderKind then [] else Joined
  {
    NestedShape();
    if k == ReminderKind {
      RemoveOwnTag(ReminderKind, "y", []);
    } else {
      assert Joined == Tag(ReminderKind) + "y]";
      RemoveOtherTag(ReminderKind, k, "y]");
    }
  }

  lemma StripNested()
    ensures StripCodes(Nested) == Joined && StripCodes(Joined) == [] && StripCodes([]) == []
  {
    NestedOuter(ReminderKind);
    NestedOuter(WhatsAppKind);
    NestedOuter(TranslateKind);
    NestedOuter(CallKind);
    JoinedStrip(VideoKind);
    JoinedStrip(SongKind);
    JoinedStrip(ReminderKind);
  }

  /** `cleanResponse` is not idempotent: cleaning the reply once leaves a code that a
      second cleaning removes. */
  lemma CleanResponseNotIdempotent()
    ensures CleanResponse(Nested) == Joined
    ensures CleanResponse(CleanResponse(Nested)) == []
  {
    StripNested();
    NestedShape();
    TrimTrimmed(Joined);
  }

  /** Cleaning to a fixpoint removes the joined code as well. */
  lemma CleanFullyNested()
    ensures CleanFully(Nested) == []
  {
    StripNested();
    NestedShape();
    CleanFullyStep(Nested);
    CleanFullyStep(Joined);
    CleanFullyStep([]);
  }

  /** One round of `CleanFully`: another round after a change, the trimmed text otherwise. */
  lemma CleanFullyStep(s: string)
    ensures CleanFully(s) == if StripCodes(s) == s then Trim(s) else CleanFully(StripCodes(s))
  {}
}
