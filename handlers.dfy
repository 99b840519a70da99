/** The per-intent reply builders of the assistant: the slots each one extracts from the
    message, the reply text, and the one action code a reply may carry. A reply is
    modelled as its visible text and an optional action; `Render` gives the string the
    assistant returns, the text followed by a newline and the encoded action. */
module Handlers {
  import opened Text
  import opened ActionCodec
  import opened TimeResolver
  import Rx = Patterns
  import opened Canned

  datatype Reply = Reply(text: string, code: Option<Action>)

  function Render(r: Reply): string {
    match r.code
    case None => r.text
    case Some(a) => r.text + "\n" + Encode(a)
  }

  /** A reply the action-code parser reads back exactly. */
  predicate WellFormed(r: Reply) {
    '[' !in r.text && (r.code.Some? ==> Encodable(r.code.value))
  }

  /** A well-formed reply whose code, if any, is of kind `k`. */
  predicate CodedBy(r: Reply, k: Kind) {
    WellFormed(r) && (r.code.Some? ==> r.code.value.KindOf() == k)
  }

  /** Parsing a well-formed reply yields its action (fields trimmed) and nothing else;
      cleaning it yields its trimmed text. */
  lemma RenderParse(r: Reply)
    requires WellFormed(r)
    ensures Parse(Render(r)) == if r.code.Some? then [Normalize(r.code.value)] else []
    ensures CleanResponse(Render(r)) == Trim(r.text)
  {
    match r.code
    case None =>
      ParsePlain(r.text);
    case Some(a) =>
      var q := r.text + "\n";
      assert Render(r) == q + Encode(a);
      ParseEncoded(q, a);
      CleanEncoded(q, a);
      TrimAppendSpace(r.text, '\n');
  }

  /** A message none of whose characters can disturb an action code. */
  predicate PlainText(m: string) {
    '[' !in m && ']' !in m && '|' !in m
  }

  lemma PlainWithin(t: string, m: string)
    requires PlainText(m) && Within(t, m)
    ensures PlainText(t)
  {}

  /** A reply carrying only a code of kind `k` parses back to at most one action, of that kind. */
  lemma CodedByParse(r: Reply, k: Kind)
    requires CodedBy(r, k)
    ensures var acts := Parse(Render(r));
      |acts| <= 1 && (acts != [] ==> acts[0].KindOf() == k)
  {
    RenderParse(r);
    var acts := Parse(Render(r));
    if r.code.Some? {
      assert acts == [Normalize(r.code.value)];
    } else {
      assert acts == [];
    }
  }

  // ------------------------------------------------------------ reminders

  const TimePatterns: seq<Rx.Pattern> := [Rx.AtClock, Rx.ClockMeridiem, Rx.DayWord, Rx.OnWeekday]

  /** `s` holds `w` at `j`, comparing ASCII letters without case. */
  predicate OccursAtFold(s: string, w: string, j: nat) {
    j + |w| <= |s| && LowerStr(s[j..j + |w|]) == LowerStr(w)
  }

  function FirstFoldFrom(s: string, w: string, j: nat): (r: Option<nat>)
    ensures r.Some? ==> j <= r.value && OccursAtFold(s, w, r.value)
    ensures r.Some? ==> forall k :: j <= k < r.value ==> !OccursAtFold(s, w, k)
    ensures r.None? ==> forall k :: j <= k ==> !OccursAtFold(s, w, k)
    decreases |s| + 1 - j
  {
    if j + |w| > |s| then None
    else if OccursAtFold(s, w, j) then Some(j)
    else FirstFoldFrom(s, w, j + 1)
  }

  /** `s.replace(new RegExp(w, 'i'), '')`: the first occurrence of `w`, ignoring case,
      removed. The time phrases passed as `w` hold only letters, digits, `:` and
      whitespace, so the pattern built from them is a literal search. */
  /** `w` occurs at `j`, ignoring case, and nowhere before. */
  predicate FirstFoldAt(s: string, w: string, j: nat) {
    OccursAtFold(s, w, j) && forall k: nat :: k < j ==> !OccursAtFold(s, w, k)
  }

  /** There is one first occurrence, and the search from the start finds it. */
  lemma {:induction false} FirstFoldFound(s: string, w: string, j: nat)
    requires FirstFoldAt(s, w, j)
    ensures FirstFoldFrom(s, w, 0) == Some(j)
  {
    assert FirstFoldFrom(s, w, 0).Some?;
  }

  function RemoveFirstFold(s: string, w: string): (r: string)
    ensures Within(r, s)
    ensures (forall k :: !OccursAtFold(s, w, k)) ==> r == s
    ensures (exists k :: OccursAtFold(s, w, k)) ==> |r| == |s| - |w|
    ensures forall j: nat :: FirstFoldAt(s, w, j) ==> r == s[..j] + s[j + |w|..]
  {
    match FirstFoldFrom(s, w, 0)
    case None => s
    case Some(j) =>
      WithinSlice(s, 0, j);
      WithinSlice(s, j + |w|, |s|);
      assert forall i: nat :: FirstFoldAt(s, w, i) ==> i == j by {
        forall i: nat | FirstFoldAt(s, w, i) ensures i == j { FirstFoldFound(s, w, i); }
      }
      s[..j] + s[j + |w|..]
  }

  datatype ReminderInfo = ReminderInfo(task: string, time: string)

  /** The time phrase: the first group of the first time pattern that matches, or empty. */
  function TimeOf(m: string): (t: string)
    ensures Within(t, m) && IsSliceOf(t, m)
    ensures t == [] <==> Rx.NoneMatches(TimePatterns, m)
    ensures forall k, g :: Rx.FirstCapture(TimePatterns, m, k, g) ==> t == g.first
  {
    match Rx.FirstOf(TimePatterns, m)
    case None => PieceIsSlice(m, 0, 0); ""
    case Some((k, g)) =>
      Rx.GroupSlicesWithin(g, m);
      assert forall i, h :: Rx.FirstCapture(TimePatterns, m, i, h) ==> h == g by {
        forall i, h | Rx.FirstCapture(TimePatterns, m, i, h) ensures h == g {
          Rx.FirstCaptureIsFirstOf(TimePatterns, m, i, h);
        }
      }
      g.first
  }

  /** The reminder's task: up to the first word that starts a time, trimmed; failing that, the rest
      of the line after "remind me to", with the time phrase taken out, trimmed. */
  function TaskOf(m: string, time: string): (t: string)
    ensures Within(t, m) && IsTrimmed(t)
    ensures Rx.Match(Rx.RemindUntilTime, m).Some? ==> t == Trim(Rx.Match(Rx.RemindUntilTime, m).value.first)
    ensures Rx.Match(Rx.RemindUntilTime, m).None? && Rx.Match(Rx.RemindRest, m).Some? ==>
              t == Trim(RemoveFirstFold(Rx.Match(Rx.RemindRest, m).value.first, time))
    ensures Rx.Match(Rx.RemindUntilTime, m).None? && Rx.Match(Rx.RemindRest, m).None? ==> t == []
  {
    match Rx.Match(Rx.RemindUntilTime, m)
    case Some(g) =>
      Rx.GroupSlicesWithin(g, m);
      TrimmedWithin(g.first, m);
      Trim(g.first)
    case None =>
      match Rx.Match(Rx.RemindRest, m)
      case None => ""
      case Some(g) =>
        var t := RemoveFirstFold(g.first, time);
        Rx.GroupSlicesWithin(g, m);
        WithinTrans(t, g.first, m);
        TrimmedWithin(t, m);
        Trim(t)
  }

  /** A piece of the message, trimmed, is still a piece of it and is trimmed. */
  lemma TrimmedWithin(t: string, m: string)
    requires Within(t, m)
    ensures Within(Trim(t), m) && IsTrimmed(Trim(t))
  {
    TrimWithin(t);
    TrimShape(t);
    WithinTrans(Trim(t), t, m);
  }

  /** `extractReminderInfo`. */
  function ReminderInfoOf(m: string): (r: ReminderInfo)
    ensures Within(r.task, m) && Within(r.time, m) && IsTrimmed(r.task)
    ensures r.time == [] <==> Rx.NoneMatches(TimePatterns, m)
    ensures forall k, g :: Rx.FirstCapture(TimePatterns, m, k, g) ==> r.time == g.first
    ensures Rx.Match(Rx.RemindUntilTime, m).Some? ==> r.task == Trim(Rx.Match(Rx.RemindUntilTime, m).value.first)
    ensures Rx.Match(Rx.RemindUntilTime, m).None? && Rx.Match(Rx.RemindRest, m).Some? ==>
              r.task == Trim(RemoveFirstFold(Rx.Match(Rx.RemindRest, m).value.first, r.time))
  {
    var time := TimeOf(m);
    ReminderInfo(TaskOf(m, time), time)
  }

  /** `extractReminderInfo`, with its loop over the time patterns. */
  method ExtractReminderInfo(m: string) returns (info: ReminderInfo)
    ensures info == ReminderInfoOf(m)
  {
    var found := Rx.FindFirst(TimePatterns, m);
    var time := "";
    if found.Some? {
      time := found.value.1.first;
    }
    var task := "";
    var taskMatch := Rx.Match(Rx.RemindUntilTime, m);
    if taskMatch.Some? {
      task := Trim(taskMatch.value.first);
    } else {
      var simpleMatch := Rx.Match(Rx.RemindRest, m);
      if simpleMatch.Some? {
        task := Trim(RemoveFirstFold(simpleMatch.value.first, time));
      }
    }
    info := ReminderInfo(task, time);
  }

  const ReminderClarification := "I'd be delighted to set " + "a reminder. Could you " + "specify what and when?"
  const LoggedPrefix := "Done. I've logged your "
  const MotivationPrefix := " Here's some motivation: "
  const AnythingElse := " Anything else?"

  lemma ReminderClarificationPlain() ensures '[' !in ReminderClarification {}
  lemma ReminderPiecesPlain() ensures '[' !in LoggedPrefix && '[' !in MotivationPrefix && '[' !in AnythingElse {}

  /** Whether the message asks for motivation: some keyword occurs in it, lower-cased. */
  predicate NeedsMotivation(m: string) {
    ContainsAny(LowerStr(m), MotivationalKeywords)
  }

  /** Corrected: the reminder's instant with "tomorrow" looked for in the whole message,
      rendered; it cannot break the action code. */
  function ReminderIso(m: string, time: string, nowUtc: int, offset: int): (iso: string)
    ensures iso == IsoString(ResolveInstantFor(time, MentionsTomorrow(m), nowUtc, offset))
    ensures iso != [] && IsTrimmed(iso) && '[' !in iso && ']' !in iso
    ensures MentionsTomorrow(m) == MentionsTomorrow(time) ==> iso == ParseTimeToIso(time, nowUtc, offset)
  {
    var t := ResolveInstantFor(time, MentionsTomorrow(m), nowUtc, offset);
    IsoShape(t);
    IsoString(t)
  }

  /** "Remind me to call the dentist tomorrow at 10 AM", sent before 10 am: the phrase
      "10 AM" holds no "tomorrow", so as written (`parseTimeToISO` handed the phrase
      alone, `ResolveLocal`) the reminder falls on the same local day; resolved with the
      whole message, as `ReminderIso` does, it falls on the next day. */
  lemma TomorrowLostAsWritten(m: string, time: string, now: int)
    requires MentionsTomorrow(m) && !MentionsTomorrow(time) && FindClock(time).Some?
    requires Hour24(FindClock(time).value) < 24 && FindClock(time).value.minute < 60
    requires now - DayStart(now) <= TimeOfDay(FindClock(time).value)
    ensures DayStart(ResolveLocal(time, now)) == DayStart(now)
    ensures DayStart(ResolveLocalFor(time, MentionsTomorrow(m), now)) == DayStart(now) + DayMs
  {
    ResolveSameDay(time, now);
    ResolveNextDay(time, now);
  }

  /** The reply for the extracted `info`: the clarification when its task or its time is
      missing, else the confirmation (with a quote when `motivate`) carrying `iso`. */
  function ReminderReplyOf(info: ReminderInfo, motivate: bool, pick: nat, iso: string): Reply {
    if info.task == [] || info.time == [] then Reply(ReminderClarification, None)
    else
      Reply(LoggedPrefix + info.task + " for " + info.time + "."
          + (if motivate then MotivationPrefix + Pick(Quotes, pick) else AnythingElse),
        Some(SetReminder(iso)))
  }

  /** `handleReminderRequest`: the instant is `parseTimeToISO` of the time phrase alone. */
  function ReminderReply(m: string, pick: nat, nowUtc: int, offset: int): Reply {
    var info := ReminderInfoOf(m);
    ReminderReplyOf(info, NeedsMotivation(m), pick, ParseTimeToIso(info.time, nowUtc, offset))
  }

  /** `handleReminderRequest`, with its call of the extraction loop. */
  method HandleReminder(m: string, pick: nat, nowUtc: int, offset: int) returns (reply: string)
    ensures reply == Render(ReminderReply(m, pick, nowUtc, offset))
  {
    var info := ExtractReminderInfo(m);
    var r := ReminderReplyOf(info, NeedsMotivation(m), pick, ParseTimeToIso(info.time, nowUtc, offset));
    reply := Render(r);
  }

  lemma ReminderTextPlain(info: ReminderInfo, motivate: bool, pick: nat, iso: string)
    requires '[' !in info.task && '[' !in info.time
    ensures '[' !in ReminderReplyOf(info, motivate, pick, iso).text
  {
    ReminderClarificationPlain();
    ReminderPiecesPlain();
    QuotesPlain(pick % |Quotes|);
    if info.task != [] && info.time != [] {
      var tail := if motivate then MotivationPrefix + Pick(Quotes, pick) else AnythingElse;
      assert '[' !in tail;
      var u := LoggedPrefix + info.task + " for " + info.time + "." + tail;
      assert '[' !in u;
    }
  }

  lemma ReminderReplyOfParses(info: ReminderInfo, motivate: bool, pick: nat, iso: string)
    requires '[' !in info.task && '[' !in info.time
    requires IsTrimmed(iso) && '[' !in iso && ']' !in iso
    ensures var r := ReminderReplyOf(info, motivate, pick, iso);
      Parse(Render(r)) == (if info.task == [] || info.time == [] then [] else [SetReminder(iso)])
      && CleanResponse(Render(r)) == Trim(r.text) && CodedBy(r, ReminderKind)
  {
    var r := ReminderReplyOf(info, motivate, pick, iso);
    ReminderTextPlain(info, motivate, pick, iso);
    TrimTrimmed(iso);
    assert WellFormed(r);
    RenderParse(r);
  }

  /** A reminder reply to a message without `[` carries no code when its task or its time
      is missing, and otherwise exactly one SET_REMINDER code whose date-time is the
      rendered instant of the time phrase. Cleaning the reply leaves its text. */
  lemma ReminderReplyParses(m: string, pick: nat, nowUtc: int, offset: int)
    requires '[' !in m
    ensures var r := ReminderReply(m, pick, nowUtc, offset);
      var info := ReminderInfoOf(m);
      Parse(Render(r)) ==
        (if info.task == [] || info.time == [] then []
         else [SetReminder(ParseTimeToIso(info.time, nowUtc, offset))])
      && CleanResponse(Render(r)) == Trim(r.text) && CodedBy(r, ReminderKind)
  {
    var info := ReminderInfoOf(m);
    IsoShape(ResolveInstant(info.time, nowUtc, offset));
    ReminderReplyOfParses(info, NeedsMotivation(m), pick, ParseTimeToIso(info.time, nowUtc, offset));
  }

  // ------------------------------------------------------------ WhatsApp

  datatype WhatsAppSlots = WhatsAppSlots(phone: string, contact: string, text: string)

  const DefaultContact := "contact"
  const DefaultText := "Hello!"

  lemma DefaultsPlain() ensures PlainText(DefaultContact) && PlainText(DefaultText) && DefaultText != [] {}

  /** `phoneMatch ? phoneMatch[1] : ''`: the number `(\+?\d{10,15})` finds, or empty. */
  function PhoneOf(m: string): (r: string)
    ensures Within(r, m)
    ensures Rx.Match(Rx.PhoneNumber, m).Some? ==>
              r == Rx.Match(Rx.PhoneNumber, m).value.first && Rx.IsPhoneNumber(r)
    ensures Rx.Match(Rx.PhoneNumber, m).None? ==> r == []
  {
    match Rx.Match(Rx.PhoneNumber, m)
    case Some(g) => PhoneSlot(m); Rx.GroupSlicesWithin(g, m); g.first
    case None => ""
  }

  /** `nameMatch ? nameMatch[1] : 'contact'`: the letters after "message", "text" or
      "whatsapp", or "contact". */
  function ContactOf(m: string): (r: string)
    ensures r == DefaultContact || (r != [] && Within(r, m))
    ensures Rx.Match(Rx.ContactName, m).Some? ==>
              r == Rx.Match(Rx.ContactName, m).value.first
              && forall k :: 0 <= k < |r| ==> IsAsciiLetter(r[k])
    ensures Rx.Match(Rx.ContactName, m).None? ==> r == DefaultContact
  {
    match Rx.Match(Rx.ContactName, m)
    case Some(g) => ContactSlot(m); Rx.GroupSlicesWithin(g, m); g.first
    case None => DefaultContact
  }

  /** `msgMatch ? msgMatch[1] : 'Hello!'`: a quoted text after "say", "tell" or "message";
      else the rest of the line after "message"; else "Hello!". */
  function MessageTextOf(m: string): (r: string)
    ensures r == DefaultText || (r != [] && Within(r, m))
    ensures Rx.Match(Rx.QuotedMessage, m).Some? ==> r == Rx.Match(Rx.QuotedMessage, m).value.first
    ensures Rx.Match(Rx.QuotedMessage, m).None? ==>
              r == (match Rx.Match(Rx.MessageRest, m) case Some(g) => g.first case None => DefaultText)
  {
    match Rx.Match(Rx.QuotedMessage, m)
    case Some(g) => Rx.GroupSlicesWithin(g, m); g.first
    case None =>
      match Rx.Match(Rx.MessageRest, m)
      case Some(g) => Rx.GroupSlicesWithin(g, m); g.first
      case None => DefaultText
  }

  /** The slots `handleWhatsAppRequest` reads from the message. */
  function WhatsAppSlotsOf(m: string): WhatsAppSlots {
    WhatsAppSlots(PhoneOf(m), ContactOf(m), MessageTextOf(m))
  }

  /** The number `(\+?\d{10,15})` captures is a phone number. */
  lemma PhoneSlot(m: string)
    requires Rx.Match(Rx.PhoneNumber, m).Some?
    ensures Rx.IsPhoneNumber(Rx.Match(Rx.PhoneNumber, m).value.first)
  {
    Rx.MatchLeftmost(Rx.PhoneNumber, m);
    var j :| 0 <= j <= |m| && Rx.MatchAt(Rx.PhoneNumber, m, j) == Rx.Match(Rx.PhoneNumber, m);
    assert Rx.MatchPhoneNumber(m, j) == Rx.Match(Rx.PhoneNumber, m);
  }

  /** The name `([a-zA-Z]+)` captures is letters only. */
  lemma ContactSlot(m: string)
    ensures Rx.Match(Rx.ContactName, m).Some? ==>
              forall k :: 0 <= k < |Rx.Match(Rx.ContactName, m).value.first| ==>
                IsAsciiLetter(Rx.Match(Rx.ContactName, m).value.first[k])
  {
    if Rx.Match(Rx.ContactName, m).Some? {
      Rx.MatchLeftmost(Rx.ContactName, m);
      var j :| 0 <= j <= |m| && Rx.MatchAt(Rx.ContactName, m, j) == Rx.Match(Rx.ContactName, m);
      assert Rx.MatchContactName(m, j) == Rx.Match(Rx.ContactName, m);
    }
  }

  const NoNumberPrefix := "I'd be happy to draft a " + "WhatsApp message to "
  const NoNumberSuffix := ". Could you provide " + "their phone number?"
  const DraftedPrefix := "Drafted your message to "

  lemma WhatsAppPiecesPlain() ensures '[' !in NoNumberPrefix && '[' !in NoNumberSuffix {}
  lemma DraftedPrefixPlain() ensures '[' !in DraftedPrefix {}

  function WhatsAppReplyOf(w: WhatsAppSlots): Reply {
    if w.phone == [] then
      Reply(NoNumberPrefix + w.contact + NoNumberSuffix, None)
    else
      Reply(DraftedPrefix + w.contact + ": \"" + w.text + "\"", Some(WhatsAppLink(w.phone, w.text)))
  }

  /** `handleWhatsAppRequest`: asks for the number when there is none. */
  function WhatsAppReply(m: string): Reply {
    WhatsAppReplyOf(WhatsAppSlotsOf(m))
  }

  lemma WhatsAppReplyOfParses(w: WhatsAppSlots)
    requires PlainText(w.phone) && PlainText(w.contact) && PlainText(w.text) && w.text != []
    ensures Parse(Render(WhatsAppReplyOf(w))) ==
      (if w.phone == [] then [] else [WhatsAppLink(Trim(w.phone), Trim(w.text))])
    ensures CodedBy(WhatsAppReplyOf(w), WhatsAppKind)
  {
    WhatsAppPiecesPlain();
    DraftedPrefixPlain();
    RenderParse(WhatsAppReplyOf(w));
  }

  /** A WhatsApp reply to a plain message carries no code without a phone number, and
      otherwise exactly one WHATSAPP_LINK code from which the parser recovers the phone
      number and the message text, trimmed. */
  lemma WhatsAppReplyParses(m: string)
    requires PlainText(m)
    ensures var w := WhatsAppSlotsOf(m);
      Parse(Render(WhatsAppReply(m))) ==
        (if w.phone == [] then [] else [WhatsAppLink(Trim(w.phone), Trim(w.text))])
    ensures CodedBy(WhatsAppReply(m), WhatsAppKind)
  {
    WhatsAppSlotsPlain(m);
    WhatsAppReplyOfParses(WhatsAppSlotsOf(m));
  }

  /** The slots read from a plain message are plain, and the text is not empty. */
  lemma WhatsAppSlotsPlain(m: string)
    requires PlainText(m)
    ensures PlainText(PhoneOf(m)) && PlainText(ContactOf(m))
    ensures PlainText(MessageTextOf(m)) && MessageTextOf(m) != []
  {
    PhonePlain(m);
    ContactPlain(m);
    MessageTextPlain(m);
  }

  lemma PhonePlain(m: string)
    requires PlainText(m)
    ensures PlainText(PhoneOf(m))
  {
    PlainWithin(PhoneOf(m), m);
  }

  lemma ContactPlain(m: string)
    requires PlainText(m)
    ensures PlainText(ContactOf(m))
  {
    var c := ContactOf(m);
    if c == DefaultContact { DefaultsPlain(); } else { PlainWithin(c, m); }
  }

  lemma MessageTextPlain(m: string)
    requires PlainText(m)
    ensures PlainText(MessageTextOf(m)) && MessageTextOf(m) != []
  {
    var t := MessageTextOf(m);
    if t == DefaultText { DefaultsPlain(); } else { PlainWithin(t, m); }
  }

  // ------------------------------------------------------------ translation

  /** The translation patterns in the order they are tried; the last one names the
      language before the text. */
  const TranslatePatterns: seq<Rx.Pattern> := [Rx.TranslateQuoted, Rx.TranslateUntilTo, Rx.TranslateToFirst]

  datatype TranslationSlots = TranslationSlots(text: string, language: string)

  function SlotsFrom(found: Option<(nat, Rx.Groups)>): TranslationSlots {
    match found
    case None => TranslationSlots("", "")
    case Some((i, g)) =>
      if i == 2 then TranslationSlots(g.second, g.first) else TranslationSlots(g.first, g.second)
  }

  /** The text and the target language of the first translation pattern that matches. */
  function TranslationSlotsOf(m: string): (r: TranslationSlots)
    ensures Within(r.text, m) && Within(r.language, m)
    ensures Rx.NoneMatches(TranslatePatterns, m) ==> r == TranslationSlots("", "")
    ensures forall k, g :: Rx.FirstCapture(TranslatePatterns, m, k, g) ==>
              r == if k == 2 then TranslationSlots(g.second, g.first) else TranslationSlots(g.first, g.second)
  {
    match Rx.FirstOf(TranslatePatterns, m)
    case None => SlotsFrom(None)
    case Some((k, g)) =>
      Rx.GroupSlicesWithin(g, m);
      assert forall i, h :: Rx.FirstCapture(TranslatePatterns, m, i, h) ==> i == k && h == g by {
        forall i, h | Rx.FirstCapture(TranslatePatterns, m, i, h) ensures i == k && h == g {
          Rx.FirstCaptureIsFirstOf(TranslatePatterns, m, i, h);
        }
      }
      SlotsFrom(Some((k, g)))
  }

  /** The loop over the translation patterns of `handleTranslationRequest`. */
  method ExtractTranslation(m: string) returns (slots: TranslationSlots)
    ensures slots == TranslationSlotsOf(m)
  {
    var found := Rx.FindFirst(TranslatePatterns, m);
    slots := TranslationSlots("", "");
    if found.Some? {
      var (i, g) := found.value;
      if i == 2 {
        slots := TranslationSlots(g.second, g.first);
      } else {
        slots := TranslationSlots(g.first, g.second);
      }
    }
  }

  /** Whether the translation is to be spoken: "orally" contains "oral". */
  predicate IsOral(m: string) {
    Contains(LowerStr(m), "orally") || Contains(LowerStr(m), "oral")
  }

  const TranslateAsk := "I'd be happy to " + "translate. Please "
  const TranslateWhat := "specify the text and " + "target language (e.g., "
  const TranslateExample := "'Translate Hello to " + "Tamil')."
  const TranslateClarification := TranslateAsk + TranslateWhat + TranslateExample

  lemma TranslatePiecesPlain() ensures '[' !in TranslateAsk && '[' !in TranslateWhat && '[' !in TranslateExample {}

  lemma TranslateClarificationPlain() ensures '[' !in TranslateClarification {
    TranslatePiecesPlain();
  }

  function TranslationReplyOf(t: TranslationSlots, oral: bool): Reply {
    if t.text == [] || t.language == [] then Reply(TranslateClarification, None)
    else
      Reply("Translating \"" + t.text + "\" to " + t.language + (if oral then " (orally)" else "") + ".",
        Some(Translate(t.language, t.text, oral)))
  }

  /** `handleTranslationRequest`. */
  function TranslationReply(m: string): Reply {
    TranslationReplyOf(TranslationSlotsOf(m), IsOral(m))
  }

  method HandleTranslation(m: string) returns (reply: string)
    ensures reply == Render(TranslationReply(m))
  {
    var slots := ExtractTranslation(m);
    reply := Render(TranslationReplyOf(slots, IsOral(m)));
  }

  lemma TranslationReplyOfParses(t: TranslationSlots, oral: bool)
    requires PlainText(t.text) && PlainText(t.language)
    ensures Parse(Render(TranslationReplyOf(t, oral))) ==
      (if t.text == [] || t.language == [] then [] else [Translate(Trim(t.language), Trim(t.text), oral)])
    ensures CodedBy(TranslationReplyOf(t, oral), TranslateKind)
  {
    TranslateClarificationPlain();
    if t.text != [] && t.language != [] {
      var u := "Translating \"" + t.text + "\" to " + t.language + (if oral then " (orally)" else "") + ".";
      assert '[' !in u;
      assert WellFormed(Reply(u, Some(Translate(t.language, t.text, oral))));
    }
    assert WellFormed(TranslationReplyOf(t, oral));
    RenderParse(TranslationReplyOf(t, oral));
  }

  /** A translation reply to a plain message carries no code when no pattern matched, and
      otherwise one TRANSLATE code holding the language and the text, trimmed, and the
      oral flag exactly when the message mentions "oral". */
  lemma TranslationReplyParses(m: string)
    requires PlainText(m)
    ensures var t := TranslationSlotsOf(m);
      Parse(Render(TranslationReply(m))) ==
        (if t.text == [] || t.language == [] then []
         else [Translate(Trim(t.language), Trim(t.text), IsOral(m))])
    ensures CodedBy(TranslationReply(m), TranslateKind)
  {
    var t := TranslationSlotsOf(m);
    PlainWithin(t.text, m);
    PlainWithin(t.language, m);
    TranslationReplyOfParses(t, IsOral(m));
  }

  // ------------------------------------------------------------ calls

  /** `s.replace(/\s/g, '')`. */
  function RemoveSpaces(s: string): (r: string)
    ensures Within(r, s)
    ensures forall k :: 0 <= k < |r| ==> !IsSpace(r[k])
    ensures (exists k :: 0 <= k < |s| && !IsSpace(s[k])) ==> r != []
  {
    if s == [] then []
    else
      var rest := RemoveSpaces(s[1..]);
      WithinSlice(s, 1, |s|);
      if IsSpace(s[0]) then
        assert forall k :: 1 <= k < |s| ==> s[k] == s[1..][k - 1];
        rest
      else [s[0]] + rest
  }

  /** A single character survives exactly when it is not whitespace. */
  lemma RemoveSpacesChar(c: char)
    ensures RemoveSpaces([c]) == if IsSpace(c) then [] else [c]
  {
    assert [c][1..] == [];
  }

  /** Removing whitespace works piece by piece: with `RemoveSpacesChar` this says the
      result is the input's non-space characters, in their order. */
  lemma {:induction false} RemoveSpacesAppend(s: string, t: string)
    ensures RemoveSpaces(s + t) == RemoveSpaces(s) + RemoveSpaces(t)
  {
    if s == [] {
      assert s + t == t;
    } else {
      assert (s + t)[0] == s[0];
      assert (s + t)[1..] == s[1..] + t;
      RemoveSpacesAppend(s[1..], t);
    }
  }

  datatype CallSlots = CallSlots(phone: string, contact: string)

  /** `phoneMatch[1].replace(/\s/g, '')`: the number after "call" without its whitespace,
      or empty. */
  function CallPhoneOf(m: string): (r: string)
    ensures Within(r, m)
    ensures Rx.Match(Rx.CallNumber, m).Some? ==>
              r == RemoveSpaces(Rx.Match(Rx.CallNumber, m).value.first) && r != []
              && forall k :: 0 <= k < |r| ==> IsDigit(r[k]) || r[k] == '-' || r[k] == '+'
    ensures Rx.Match(Rx.CallNumber, m).None? ==> r == []
  {
    match Rx.Match(Rx.CallNumber, m)
    case Some(g) =>
      Rx.GroupSlicesWithin(g, m);
      WithinTrans(RemoveSpaces(g.first), g.first, m);
      DialledSlot(m);
      RemoveSpaces(g.first)
    case None => ""
  }

  /** The contact: the number itself when there is one; failing that, the name after
      "call", trimmed; otherwise empty. */
  function CallContactOf(m: string): (r: string)
    ensures Within(r, m)
    ensures Rx.Match(Rx.CallNumber, m).Some? ==> r == CallPhoneOf(m)
    ensures Rx.Match(Rx.CallNumber, m).None? && Rx.Match(Rx.CallName, m).Some? ==>
              r == Trim(Rx.Match(Rx.CallName, m).value.first)
    ensures Rx.Match(Rx.CallNumber, m).None? && Rx.Match(Rx.CallName, m).None? ==> r == []
  {
    if Rx.Match(Rx.CallNumber, m).Some? then CallPhoneOf(m)
    else
      match Rx.Match(Rx.CallName, m)
      case Some(g) =>
        Rx.GroupSlicesWithin(g, m);
        TrimmedWithin(g.first, m);
        Trim(g.first)
      case None => ""
  }

  /** The slots `handleCallRequest` reads from the message: a number after "call" is
      both the number and the contact. */
  function CallSlotsOf(m: string): (r: CallSlots)
    ensures r.phone != [] ==> r.contact == r.phone
  {
    CallSlots(CallPhoneOf(m), CallContactOf(m))
  }

  /** The number `call\s+(\+?\d[\d\s-]+)` captures, with its whitespace removed, is not
      empty and holds only digits, hyphens and plus signs. */
  lemma DialledSlot(m: string)
    requires Rx.Match(Rx.CallNumber, m).Some?
    ensures var p := RemoveSpaces(Rx.Match(Rx.CallNumber, m).value.first);
      p != [] && forall k :: 0 <= k < |p| ==> IsDigit(p[k]) || p[k] == '-' || p[k] == '+'
  {
    var t := Rx.Match(Rx.CallNumber, m).value.first;
    Rx.MatchLeftmost(Rx.CallNumber, m);
    var j :| 0 <= j <= |m| && Rx.MatchAt(Rx.CallNumber, m, j) == Rx.Match(Rx.CallNumber, m);
    assert Rx.MatchCallNumber(m, j) == Rx.Match(Rx.CallNumber, m);
    DialledChars(t);
  }

  /** A dialled number is a plus sign, digits, whitespace and hyphens; stripped of its
      whitespace it keeps its first digit and only those characters. */
  lemma DialledChars(t: string)
    requires Rx.IsDialled(t)
    ensures var p := RemoveSpaces(t);
      p != [] && forall k :: 0 <= k < |p| ==> IsDigit(p[k]) || p[k] == '-' || p[k] == '+'
  {
    var b := if t != [] && t[0] == '+' then 1 else 0;
    assert !IsSpace(t[b]);
    var p := RemoveSpaces(t);
    forall k | 0 <= k < |p| ensures IsDigit(p[k]) || p[k] == '-' || p[k] == '+' {
      assert p[k] in t;
      var i :| 0 <= i < |t| && t[i] == p[k];
      if i > b { assert Rx.IsPhoneChar(t[i]); }
    }
  }

  const CallQuestion := "Who would you like me " + "to call?"
  const SpeakerMode := " now. Setting to " + "speaker mode."

  lemma CallPiecesPlain() ensures '[' !in CallQuestion && '[' !in SpeakerMode {}

  function CallReplyOf(c: CallSlots): Reply {
    if c.contact == [] then Reply(CallQuestion, None)
    else
      Reply("Calling " + c.contact + SpeakerMode,
        Some(Call(if c.phone != [] then c.phone else c.contact, c.contact)))
  }

  /** `handleCallRequest`. */
  function CallReply(m: string): Reply {
    CallReplyOf(CallSlotsOf(m))
  }

  lemma CallReplyOfParses(c: CallSlots)
    requires PlainText(c.phone) && PlainText(c.contact)
    ensures Parse(Render(CallReplyOf(c))) ==
      (if c.contact == [] then []
       else [Call(Trim(if c.phone != [] then c.phone else c.contact), Trim(c.contact))])
    ensures CodedBy(CallReplyOf(c), CallKind)
  {
    CallPiecesPlain();
    if c.contact != [] {
      var t := "Calling " + c.contact + SpeakerMode;
      assert '[' !in t;
      assert WellFormed(Reply(t, Some(Call(if c.phone != [] then c.phone else c.contact, c.contact))));
    }
    assert WellFormed(CallReplyOf(c));
    RenderParse(CallReplyOf(c));
  }

  /** A call reply to a plain message carries no code when no contact was found, and
      otherwise one CALL code holding the number (or, without one, the name) and the name. */
  lemma CallReplyParses(m: string)
    requires PlainText(m)
    ensures var c := CallSlotsOf(m);
      Parse(Render(CallReply(m))) ==
        (if c.contact == [] then []
         else [Call(Trim(if c.phone != [] then c.phone else c.contact), Trim(c.contact))])
    ensures CodedBy(CallReply(m), CallKind)
  {
    var c := CallSlotsOf(m);
    PlainWithin(c.phone, m);
    PlainWithin(c.contact, m);
    CallReplyOfParses(c);
  }

  // ------------------------------------------------------------ videos

  const VideoPatterns: seq<Rx.Pattern> :=
    [Rx.PlayVideoQuoted, Rx.PlayVideoRest, Rx.ShowVideoQuoted, Rx.ShowVideoRest]

  /** The first group of the first video pattern that matches, trimmed, or empty. */
  function VideoNameOf(m: string): (n: string)
    ensures Within(n, m) && IsTrimmed(n)
    ensures Rx.NoneMatches(VideoPatterns, m) ==> n == []
    ensures forall k, g :: Rx.FirstCapture(VideoPatterns, m, k, g) ==> n == Trim(g.first)
  {
    match Rx.FirstOf(VideoPatterns, m)
    case None => ""
    case Some((_, g)) =>
      assert forall i, h :: Rx.FirstCapture(VideoPatterns, m, i, h) ==> h == g by {
        forall i, h | Rx.FirstCapture(VideoPatterns, m, i, h) ensures h == g {
          Rx.FirstCaptureIsFirstOf(VideoPatterns, m, i, h);
        }
      }
      Rx.GroupSlicesWithin(g, m);
      TrimmedWithin(g.first, m);
      Trim(g.first)
  }

  /** The loop over the video patterns of `handleVideoRequest`. */
  method ExtractVideoName(m: string) returns (name: string)
    ensures name == VideoNameOf(m)
  {
    var found := Rx.FindFirst(VideoPatterns, m);
    name := "";
    if found.Some? {
      name := Trim(found.value.1.first);
    }
  }

  const VideoQuestion := "Which video would you " + "like to watch?"
  const FromPublicDomain := "\" from public domain."

  lemma VideoPiecesPlain() ensures '[' !in VideoQuestion && '[' !in FromPublicDomain {}

  function VideoReplyOf(name: string): Reply {
    if name == [] then Reply(VideoQuestion, None)
    else Reply("Playing \"" + name + FromPublicDomain, Some(PlayVideo(name)))
  }

  /** `handleVideoRequest`. */
  function VideoReply(m: string): Reply {
    VideoReplyOf(VideoNameOf(m))
  }

  method HandleVideo(m: string) returns (reply: string)
    ensures reply == Render(VideoReply(m))
  {
    var name := ExtractVideoName(m);
    reply := Render(VideoReplyOf(name));
  }

  lemma VideoReplyOfParses(n: string)
    requires Plain(n) && IsTrimmed(n)
    ensures Parse(Render(VideoReplyOf(n))) == (if n == [] then [] else [PlayVideo(n)])
    ensures CodedBy(VideoReplyOf(n), VideoKind)
  {
    VideoPiecesPlain();
    if n != [] {
      var t := "Playing \"" + n + FromPublicDomain;
      assert '[' !in t;
      assert WellFormed(Reply(t, Some(PlayVideo(n))));
    }
    assert WellFormed(VideoReplyOf(n));
    RenderParse(VideoReplyOf(n));
    TrimTrimmed(n);
  }

  /** A video reply to a message without brackets carries no code when no name was
      found, and otherwise one PLAY_VIDEO code holding exactly the name. */
  lemma VideoReplyParses(m: string)
    requires Plain(m)
    ensures var n := VideoNameOf(m);
      Parse(Render(VideoReply(m))) == (if n == [] then [] else [PlayVideo(n)])
    ensures CodedBy(VideoReply(m), VideoKind)
  {
    VideoReplyOfParses(VideoNameOf(m));
  }

  // ------------------------------------------------------------ songs

  const SongPatterns: seq<Rx.Pattern> := [Rx.PlayKindQuoted, Rx.PlayQuoted, Rx.PlayKindRest, Rx.PlayRest]

  /** Captures that are not song names. */
  const SongDenylist: seq<string> := ["video", "videos", "a song", "music", "something"]

  predicate Denied(name: string) {
    LowerStr(name) in SongDenylist
  }

  /** The capture of the song pattern `p` in `m`, trimmed. */
  function Capture(p: Rx.Pattern, m: string): (r: Option<string>)
    ensures r.Some? ==> Within(r.value, m) && IsTrimmed(r.value)
  {
    match Rx.Match(p, m)
    case None => None
    case Some(g) =>
      Rx.GroupSlicesWithin(g, m);
      TrimmedWithin(g.first, m);
      Some(Trim(g.first))
  }

  /** The captures of the song patterns, in the order they are tried. */
  function SongCaptures(m: string): seq<Option<string>> {
    seq(|SongPatterns|, k requires 0 <= k < |SongPatterns| => Capture(SongPatterns[k], m))
  }

  /** The song loop as written: every capture becomes the name, and only a capture that
      is not denied stops the loop. So the name is `current` or one of the captures from
      `i` on. */
  function AsWrittenFrom(caps: seq<Option<string>>, i: nat, current: string): (n: string)
    ensures n == current || exists k :: i <= k < |caps| && caps[k] == Some(n)
    decreases |caps| - i
  {
    if i >= |caps| then current
    else
      match caps[i]
      case None => AsWrittenFrom(caps, i + 1, current)
      case Some(n) => if Denied(n) then AsWrittenFrom(caps, i + 1, n) else n
  }

  /** The song loop with the evident intent: a denied capture is discarded, so the name
      is the first capture from `i` on that is not denied, or empty. */
  function CorrectedFrom(caps: seq<Option<string>>, i: nat): (n: string)
    ensures !Denied(n)
    ensures n == [] || exists k :: i <= k < |caps| && caps[k] == Some(n)
    decreases |caps| - i
  {
    if i >= |caps| then ""
    else
      match caps[i]
      case None => CorrectedFrom(caps, i + 1)
      case Some(n) => if Denied(n) then CorrectedFrom(caps, i + 1) else n
  }

  /** The two loops differ only where the source errs: started from no name or a denied
      one, the loop as written finds the corrected name, or else a denied capture
      (or its starting name) where the corrected loop finds none. */
  lemma {:induction false} LoopsAgreeFrom(caps: seq<Option<string>>, i: nat, current: string)
    requires current == [] || Denied(current)
    ensures var n := AsWrittenFrom(caps, i, current);
      n == CorrectedFrom(caps, i) || (CorrectedFrom(caps, i) == [] && (n == current || Denied(n)))
    decreases |caps| - i
  {
    if i < |caps| {
      match caps[i]
      case None => LoopsAgreeFrom(caps, i + 1, current);
      case Some(n) => if Denied(n) { LoopsAgreeFrom(caps, i + 1, n); }
    }
  }

  /** The song name `handleSongRequest` computes: drawn from the message and trimmed. */
  function SongNameAsWritten(m: string): (n: string)
    ensures Within(n, m) && IsTrimmed(n)
  {
    AsWrittenFrom(SongCaptures(m), 0, "")
  }

  /** Corrected: the song name is drawn from the message, trimmed, and never denied. */
  function SongNameOf(m: string): (n: string)
    ensures Within(n, m) && IsTrimmed(n) && !Denied(n)
  {
    CorrectedFrom(SongCaptures(m), 0)
  }

  /** The song name as written is the corrected one unless it is a denied word, and then
      the corrected loop finds no name. */
  lemma SongLoopsAgree(m: string)
    ensures SongNameAsWritten(m) == SongNameOf(m) || (Denied(SongNameAsWritten(m)) && SongNameOf(m) == [])
  {
    LoopsAgreeFrom(SongCaptures(m), 0, "");
  }

  /** As written, "play music" plays "music": the capture "music" of the last pattern is
      denied, yet no later pattern replaces it. The corrected loop finds no name. */
  lemma DeniedNameLeaks(m: string)
    requires Capture(Rx.PlayKindQuoted, m).None? && Capture(Rx.PlayQuoted, m).None?
    requires Capture(Rx.PlayKindRest, m).None?
    requires Capture(Rx.PlayRest, m).Some? && Denied(Capture(Rx.PlayRest, m).value)
    ensures Denied(SongNameAsWritten(m)) && SongNameOf(m) == []
  {
    SongCapturesAre(m);
    LastCaptureLeaks(SongCaptures(m));
  }

  lemma SongCapturesAre(m: string)
    ensures SongCaptures(m) ==
      [Capture(Rx.PlayKindQuoted, m), Capture(Rx.PlayQuoted, m), Capture(Rx.PlayKindRest, m), Capture(Rx.PlayRest, m)]
  {}

  lemma LastCaptureLeaks(caps: seq<Option<string>>)
    requires |caps| == 4 && caps[0].None? && caps[1].None? && caps[2].None?
    requires caps[3].Some? && Denied(caps[3].value)
    ensures AsWrittenFrom(caps, 0, "") == caps[3].value && CorrectedFrom(caps, 0) == []
  {
    assert AsWrittenFrom(caps, 0, "") == AsWrittenFrom(caps, 1, "") == AsWrittenFrom(caps, 2, "");
    assert AsWrittenFrom(caps, 2, "") == AsWrittenFrom(caps, 3, "") == AsWrittenFrom(caps, 4, caps[3].value);
    assert CorrectedFrom(caps, 0) == CorrectedFrom(caps, 1) == CorrectedFrom(caps, 2);
    assert CorrectedFrom(caps, 2) == CorrectedFrom(caps, 3) == CorrectedFrom(caps, 4);
  }

  /** The loop over the song patterns of `handleSongRequest`: each match assigns the
      name, and the loop stops at the first name that is not denied. */
  method ExtractSongName(m: string) returns (name: string)
    ensures name == SongNameAsWritten(m)
  {
    var caps := SongCaptures(m);
    name := "";
    for i := 0 to |SongPatterns|
      invariant AsWrittenFrom(caps, 0, "") == AsWrittenFrom(caps, i, name)
    {
      var found := Rx.Match(SongPatterns[i], m);
      assert caps[i] == Capture(SongPatterns[i], m);
      if found.Some? {
        name := Trim(found.value.first);
        if !Denied(name) {
          return;
        }
      }
    }
  }

  const SongQuestion := "Which song would you " + "like to hear?"

  lemma SongQuestionPlain() ensures '[' !in SongQuestion {}

  function SongReplyOf(name: string): Reply {
    if |name| < 2 then Reply(SongQuestion, None)
    else Reply("Playing \"" + name + FromPublicDomain, Some(PlaySong(name)))
  }

  /** `handleSongRequest`. */
  function SongReply(m: string): Reply {
    SongReplyOf(SongNameAsWritten(m))
  }

  method HandleSong(m: string) returns (reply: string)
    ensures reply == Render(SongReply(m))
  {
    var name := ExtractSongName(m);
    reply := Render(SongReplyOf(name));
  }

  lemma SongReplyOfParses(n: string)
    requires Plain(n) && IsTrimmed(n)
    ensures Parse(Render(SongReplyOf(n))) == (if |n| < 2 then [] else [PlaySong(n)])
    ensures CodedBy(SongReplyOf(n), SongKind)
  {
    SongQuestionPlain();
    VideoPiecesPlain();
    if |n| >= 2 {
      var t := "Playing \"" + n + FromPublicDomain;
      assert '[' !in t;
      assert WellFormed(Reply(t, Some(PlaySong(n))));
    }
    assert WellFormed(SongReplyOf(n));
    RenderParse(SongReplyOf(n));
    TrimTrimmed(n);
  }

  /** A song reply to a message without brackets carries no code when the name is shorter
      than two characters, and otherwise one PLAY_SONG code holding exactly the name. */
  lemma SongReplyParses(m: string)
    requires Plain(m)
    ensures var n := SongNameAsWritten(m);
      Parse(Render(SongReply(m))) == (if |n| < 2 then [] else [PlaySong(n)])
    ensures CodedBy(SongReply(m), SongKind)
  {
    SongReplyOfParses(SongNameAsWritten(m));
  }
}
