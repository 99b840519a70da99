/** The messages of the repository's smoke test (test.js), worked through the slot
    extraction: what each handler reads from them, and the action code its reply carries.
    Each fact is proved from the matchers' definitions, one step of the regular
    expression at a time. */
module Scenarios {
  import opened Text
  import opened ActionCodec
  import Rx = Patterns
  import opened Handlers
  import T = TimeResolver

  // ------------------------------------------------------------ "Call mom"

  const CallMessage := "Call mom"

  lemma CallPieces()
    ensures OccursAtCi(CallMessage, "call", 0) && SpaceRun(CallMessage, 4) == 1
    ensures Rx.LetterSpaceRun(CallMessage, 6) == 2
    ensures forall e :: 1 <= e <= |CallMessage| ==> !OccursAtCi(CallMessage, "call", e)
  {
    OccursAtCiChars(CallMessage, "call", 0);
    SpaceRunExact(CallMessage, 4, 1);
    assert Rx.LetterSpaceRun(CallMessage, 8) == 0;
    forall e | 1 <= e <= |CallMessage| ensures !OccursAtCi(CallMessage, "call", e) {
      NotOccursAtCi(CallMessage, "call", e, 0);
    }
  }

  /** No number follows "call". */
  lemma CallNoNumber()
    ensures Rx.Match(Rx.CallNumber, CallMessage).None?
  {
    CallPieces();
    forall e | 0 <= e <= |CallMessage| ensures Rx.MatchAt(Rx.CallNumber, CallMessage, e).None? {
    }
    Rx.MatchAbsent(Rx.CallNumber, CallMessage);
  }

  /** Tried at the start, the name runs to the end of the message. */
  lemma CallNameAt()
    ensures Rx.MatchAt(Rx.CallName, CallMessage, 0) == Some(Rx.Groups("mom", ""))
  {
    CallPieces();
    assert Rx.RestEnd(Rx.NameStop, CallMessage, 7).None?;
    Rx.FirstStopAt(Rx.NameStop, CallMessage, 7, 8, 8);
    assert CallMessage[5..8] == "mom";
  }

  lemma CallNameGroup()
    ensures Rx.Match(Rx.CallName, CallMessage) == Some(Rx.Groups("mom", ""))
  {
    CallNameAt();
    Rx.MatchLeftmostAt(Rx.CallName, CallMessage, 0);
  }

  /** test.js:59: "Call mom" calls the contact "mom", by name, since there is no number. */
  lemma CallScenario()
    ensures CallSlotsOf(CallMessage) == CallSlots("", "mom")
  {
    CallNoPhone();
    CallContactMom();
  }

  lemma CallNoPhone()
    ensures CallPhoneOf(CallMessage) == []
  {
    CallNoNumber();
  }

  lemma CallContactMom()
    ensures CallContactOf(CallMessage) == "mom"
  {
    CallNoNumber();
    CallNameGroup();
    MomTrimmed();
  }

  lemma MomTrimmed()
    ensures Trim("mom") == "mom"
  {
    TrimTrimmed("mom");
  }

  lemma CallPlain()
    ensures PlainText(CallMessage)
  {
    assert CallMessage == "Call mom";
  }

  /** The reply to "Call mom" carries one code, calling "mom". */
  lemma CallScenarioCode()
    ensures Parse(Render(CallReply(CallMessage))) == [Call("mom", "mom")]
  {
    CallScenario();
    CallPlain();
    CallReplyParses(CallMessage);
  }

  // ------------------------------------------------------------ "Play video ..."

  const VideoName := "Nature Documentary"
  const VideoMessage := "Play video \"" + VideoName + "\""

  lemma VideoLead()
    ensures |VideoMessage| == 31 && VideoMessage[11] == '"' && VideoMessage[30] == '"'
    ensures OccursAtCi(VideoMessage, "play video", 0) && SpaceRun(VideoMessage, 10) == 1
  {
    OccursAtCiChars(VideoMessage, "play video", 0);
    SpaceRunExact(VideoMessage, 10, 1);
  }

  /** The name holds no quote and no line terminator. */
  lemma VideoNamePlain()
    ensures forall k :: 12 <= k < 30 ==> VideoMessage[k] == VideoName[k - 12]
    ensures forall k :: 0 <= k < |VideoName| ==> !IsQuote(VideoName[k]) && !IsLineTerminator(VideoName[k])
  {
    forall k | 0 <= k < |VideoName| ensures !IsQuote(VideoName[k]) && !IsLineTerminator(VideoName[k]) {
      assert VideoName[k] in VideoName;
    }
  }

  lemma VideoQuote()
    ensures LineRun(VideoMessage, 12) == 19
    ensures Rx.FirstQuote(VideoMessage, 13, 31) == Some(30)
  {
    VideoLead();
    VideoNamePlain();
    LineRunToEnd(VideoMessage, 12);
    Rx.FirstQuoteAt(VideoMessage, 13, 31, 30);
  }

  /** The quote before the name opens a group that the quote after it closes. */
  lemma VideoQuotedAt()
    ensures Rx.QuotedAt(VideoMessage, 11) == Some((VideoName, 30))
  {
    VideoLead();
    VideoQuote();
    assert VideoMessage[12..30] == VideoName;
  }

  /** The quoted name is the first video pattern's group. */
  lemma VideoQuotedGroup()
    ensures Rx.Match(Rx.PlayVideoQuoted, VideoMessage) == Some(Rx.Groups(VideoName, ""))
  {
    VideoLead();
    VideoQuotedAt();
    assert Rx.MatchAt(Rx.PlayVideoQuoted, VideoMessage, 0) == Some(Rx.Groups(VideoName, ""));
    Rx.MatchLeftmostAt(Rx.PlayVideoQuoted, VideoMessage, 0);
  }

  /** test.js:68: the video to play is the quoted "Nature Documentary". */
  lemma VideoScenario()
    ensures VideoNameOf(VideoMessage) == "Nature Documentary"
  {
    VideoFirstCapture();
    VideoNameTrimmed();
  }

  lemma VideoNameTrimmed()
    ensures Trim(VideoName) == VideoName
  {
    TrimTrimmed(VideoName);
  }

  /** The first video pattern is the first to match. */
  lemma VideoFirstCapture()
    ensures Rx.FirstCapture(VideoPatterns, VideoMessage, 0, Rx.Groups(VideoName, ""))
  {
    VideoQuotedGroup();
    assert VideoPatterns[0] == Rx.PlayVideoQuoted;
  }

  lemma VideoPlain()
    ensures Plain(VideoMessage)
  {
    assert '[' !in VideoName && ']' !in VideoName;
  }

  /** The reply to it carries one code, playing that video. */
  lemma VideoScenarioCode()
    ensures Parse(Render(VideoReply(VideoMessage))) == [PlayVideo("Nature Documentary")]
  {
    VideoScenario();
    VideoPlain();
    VideoReplyParses(VideoMessage);
  }

  // ------------------------------------------------------------ a WhatsApp message

  const WaLead := "Message John at "
  const WaNumber := "+1234567890"
  const WaSaying := " saying "
  const WaText := "Hey there!"
  const WaMessage := WaLead + WaNumber + WaSaying + "\"" + WaText + "\""

  /** Where each piece of the message stands. */
  lemma WaLayout()
    ensures |WaMessage| == 47 && WaMessage[35] == '"' && WaMessage[46] == '"'
    ensures forall k :: 0 <= k < 16 ==> WaMessage[k] == WaLead[k]
    ensures forall k :: 16 <= k < 27 ==> WaMessage[k] == WaNumber[k - 16]
    ensures forall k :: 27 <= k < 35 ==> WaMessage[k] == WaSaying[k - 27]
    ensures forall k :: 36 <= k < 46 ==> WaMessage[k] == WaText[k - 36]
  {}

  /** No line terminator anywhere in the message. */
  lemma WaNoLineTerminator()
    ensures forall k :: 0 <= k < |WaMessage| ==> !IsLineTerminator(WaMessage[k])
  {
    WaLayout();
    forall k | 0 <= k < |WaMessage| ensures !IsLineTerminator(WaMessage[k]) {
      if k < 16 { assert WaLead[k] in WaLead; }
      else if k < 27 { assert WaNumber[k - 16] in WaNumber; }
      else if k < 35 { assert WaSaying[k - 27] in WaSaying; }
      else if 36 <= k < 46 { assert WaText[k - 36] in WaText; }
    }
  }

  /** No quote before the one opening the text. */
  lemma WaNoQuoteBefore()
    ensures forall k :: 0 <= k < 35 ==> !IsQuote(WaMessage[k])
  {
    WaLayout();
    forall k | 0 <= k < 35 ensures !IsQuote(WaMessage[k]) {
      if k < 16 { assert WaLead[k] in WaLead; }
      else if k < 27 { assert WaNumber[k - 16] in WaNumber; }
      else { assert WaSaying[k - 27] in WaSaying; }
    }
  }

  /** No quote inside the text. */
  lemma WaNoQuoteInside()
    ensures forall k :: 36 <= k < 46 ==> !IsQuote(WaMessage[k])
  {
    WaLayout();
    forall k | 36 <= k < 46 ensures !IsQuote(WaMessage[k]) {
      assert WaText[k - 36] in WaText;
    }
  }

  /** Before the number stands no digit and no plus sign, so no phone number starts
      there. */
  lemma WaNoEarlierPhone()
    ensures forall e :: 0 <= e < 16 ==> Rx.MatchAt(Rx.PhoneNumber, WaMessage, e).None?
  {
    WaLayout();
    forall e | 0 <= e < 16 ensures Rx.MatchAt(Rx.PhoneNumber, WaMessage, e).None? {
      assert WaLead[e] in WaLead;
      assert DigitRun(WaMessage, e) == 0;
    }
  }

  /** The number: a plus sign and ten digits, then a space. */
  lemma WaPhoneAt()
    ensures Rx.MatchAt(Rx.PhoneNumber, WaMessage, 16) == Some(Rx.Groups(WaNumber, ""))
  {
    WaPhoneDigits();
    DigitRunExact(WaMessage, 17, 10);
  }

  /** A plus sign, ten digits and a space. */
  lemma WaPhoneDigits()
    ensures WaMessage[16] == '+' && !IsDigit(WaMessage[27]) && WaMessage[16..27] == WaNumber
    ensures forall k :: 17 <= k < 27 ==> IsDigit(WaMessage[k])
  {
    WaLayout();
    forall k | 17 <= k < 27 ensures IsDigit(WaMessage[k]) {
      assert WaNumber[k - 16] in WaNumber[1..];
    }
    assert WaMessage[27] == WaSaying[0];
  }

  lemma WaPhone()
    ensures Rx.Match(Rx.PhoneNumber, WaMessage) == Some(Rx.Groups(WaNumber, ""))
  {
    WaNoEarlierPhone();
    WaPhoneAt();
    Rx.MatchLeftmostAt(Rx.PhoneNumber, WaMessage, 16);
  }

  /** The message opens with "Message", in any case. */
  lemma WaOpensWithMessage()
    ensures OccursAtCi(WaMessage, "message", 0)
  {
    WaLayout();
    OccursAtCiChars(WaMessage, "message", 0);
  }

  lemma WaContactWord()
    ensures Rx.AltAt(WaMessage, Rx.ContactWords, 0) == Some(0)
  {
    WaOpensWithMessage();
  }

  /** After "Message" comes one space, then four letters and a space. */
  lemma WaContactRuns()
    ensures SpaceRun(WaMessage, 7) == 1 && LetterRun(WaMessage, 8) == 4
    ensures WaMessage[8..12] == "John"
  {
    WaLayout();
    SpaceRunExact(WaMessage, 7, 1);
    LetterRunExact(WaMessage, 8, 4);
    assert WaMessage[8..12] == WaLead[8..12];
  }

  lemma WaContactNameAt()
    ensures Rx.MatchContactName(WaMessage, 0) == Some(Rx.Groups("John", ""))
  {
    WaContactWord();
    WaContactRuns();
    assert |Rx.ContactWords[0]| == 7;
  }

  lemma WaContactAt()
    ensures Rx.MatchAt(Rx.ContactName, WaMessage, 0) == Some(Rx.Groups("John", ""))
  {
    WaContactNameAt();
    ContactNameCase(WaMessage, 0);
  }

  /** The contact-name pattern is tried by its own matcher. */
  lemma {:induction false} ContactNameCase(s: string, j: nat)
    ensures Rx.MatchAt(Rx.ContactName, s, j) == Rx.MatchContactName(s, j)
  {}

  /** "Message" and a space, then the letters of "John". */
  lemma WaContact()
    ensures Rx.Match(Rx.ContactName, WaMessage) == Some(Rx.Groups("John", ""))
  {
    WaContactAt();
    Rx.MatchLeftmostAt(Rx.ContactName, WaMessage, 0);
  }

  /** The quote at 35 opens the text, closed by the quote at 46. */
  lemma WaQuotedAt()
    ensures Rx.QuotedAt(WaMessage, 35) == Some((WaText, 46))
  {
    WaLayout();
    WaNoLineTerminator();
    WaNoQuoteInside();
    LineRunToEnd(WaMessage, 36);
    Rx.FirstQuoteAt(WaMessage, 37, 47, 46);
    assert WaMessage[36..46] == WaText;
  }

  /** After "Message", the first quote that opens a quoted group is the one at 35. */
  lemma WaTextStop()
    ensures Rx.FirstStop(Rx.OpenQuoteStop, WaMessage, 7, 47) == Some(35)
  {
    WaNoQuoteBefore();
    WaQuotedAt();
    assert Rx.NoStopIn(Rx.OpenQuoteStop, WaMessage, 7, 35) by {
      forall x | 7 <= x < 35 ensures Rx.RestEnd(Rx.OpenQuoteStop, WaMessage, x).None? {
        assert !IsQuote(WaMessage[x]);
      }
    }
    Rx.FirstStopAt(Rx.OpenQuoteStop, WaMessage, 7, 47, 35);
  }

  /** Neither "say" nor "tell" opens the message, "message" does. */
  lemma WaSayWord()
    ensures Rx.AltAt(WaMessage, Rx.SayWords, 0) == Some(2)
  {
    WaLayout();
    NotOccursAtCi(WaMessage, "say", 0, 0);
    NotOccursAtCi(WaMessage, "tell", 0, 0);
    WaOpensWithMessage();
  }

  lemma WaQuotedMessageAt()
    ensures Rx.MatchQuotedMessage(WaMessage, 0) == Some(Rx.Groups(WaText, ""))
  {
    WaNoLineTerminator();
    WaSayWord();
    assert |Rx.SayWords[2]| == 7;
    LineRunToEnd(WaMessage, 7);
    WaTextStop();
    WaQuotedAt();
  }

  lemma WaQuotedTextAt()
    ensures Rx.MatchAt(Rx.QuotedMessage, WaMessage, 0) == Some(Rx.Groups(WaText, ""))
  {
    WaQuotedMessageAt();
    QuotedMessageCase(WaMessage, 0);
  }

  /** The quoted-message pattern is tried by its own matcher. */
  lemma {:induction false} QuotedMessageCase(s: string, j: nat)
    ensures Rx.MatchAt(Rx.QuotedMessage, s, j) == Rx.MatchQuotedMessage(s, j)
  {}

  /** "Message" is one of the words before the quoted text, and the text is "Hey there!". */
  lemma WaQuotedText()
    ensures Rx.Match(Rx.QuotedMessage, WaMessage) == Some(Rx.Groups(WaText, ""))
  {
    WaQuotedTextAt();
    Rx.MatchLeftmostAt(Rx.QuotedMessage, WaMessage, 0);
  }

  /** test.js:40: the number, the contact and the quoted text. */
  lemma WhatsAppScenario()
    ensures WhatsAppSlotsOf(WaMessage) == WhatsAppSlots("+1234567890", "John", "Hey there!")
  {
    WaPhone();
    WaContact();
    WaQuotedText();
  }

  // ------------------------------------------------------------ a reminder

  const RmLead := "Remind me to "
  const RmCall := "call"
  const RmThe := "the"
  const RmDentist := "dentist"
  const RmTask := RmCall + " " + RmThe + " " + RmDentist
  const RmWhen := " tomorrow at "
  const RmTime := "10 AM"
  const RmMessage := RmLead + RmTask + RmWhen + RmTime

  /** Where each piece of the message stands. */
  lemma RmLayout()
    ensures |RmMessage| == 47
    ensures forall k :: 0 <= k < 13 ==> RmMessage[k] == RmLead[k]
    ensures forall k :: 13 <= k < 29 ==> RmMessage[k] == RmTask[k - 13]
    ensures forall k :: 29 <= k < 42 ==> RmMessage[k] == RmWhen[k - 29]
    ensures forall k :: 42 <= k < 47 ==> RmMessage[k] == RmTime[k - 42]
  {}

  /** The task is three words with a space between each two. */
  lemma RmTaskLayout()
    ensures |RmTask| == 16 && RmTask[4] == ' ' && RmTask[8] == ' '
    ensures forall k :: 0 <= k < 16 && k != 4 && k != 8 ==> IsAsciiLetter(RmTask[k])
  {
    forall k | 0 <= k < 16 && k != 4 && k != 8 ensures IsAsciiLetter(RmTask[k]) {
      if k < 4 { assert RmTask[k] == RmCall[k]; assert RmCall[k] in RmCall; }
      else if k < 8 { assert RmTask[k] == RmThe[k - 5]; assert RmThe[k - 5] in RmThe; }
      else { assert RmTask[k] == RmDentist[k - 9]; assert RmDentist[k - 9] in RmDentist; }
    }
  }

  /** No digit before the time, and no line terminator anywhere. */
  lemma RmCharacters()
    ensures forall k :: 0 <= k < 42 ==> !IsDigit(RmMessage[k])
    ensures forall k :: 0 <= k < 47 ==> !IsLineTerminator(RmMessage[k])
  {
    RmLayout();
    RmTaskLayout();
    forall k | 0 <= k < 47 ensures !IsLineTerminator(RmMessage[k]) && (k < 42 ==> !IsDigit(RmMessage[k])) {
      if k < 13 { assert RmLead[k] in RmLead; }
      else if k < 29 { }
      else if k < 42 { assert RmWhen[k - 29] in RmWhen; }
      else { assert RmTime[k - 42] in RmTime; }
    }
  }

  /** The at-clock pattern is tried by its own matcher. */
  lemma {:induction false} AtClockCase(s: string, j: nat)
    ensures Rx.MatchAt(Rx.AtClock, s, j) == Rx.MatchAtClock(s, j)
  {}

  /** No digit stands three places after any earlier index, so "at " and a clock
      occur nowhere before 39. */
  lemma RmNoEarlierClock()
    ensures forall e :: 0 <= e < 39 ==> Rx.MatchAt(Rx.AtClock, RmMessage, e).None?
  {
    RmCharacters();
    forall e | 0 <= e < 39 ensures Rx.MatchAt(Rx.AtClock, RmMessage, e).None? {
      AtClockCase(RmMessage, e);
    }
  }

  /** "10 AM" reads as ten o'clock in the morning, and the clock match covers it all. */
  lemma RmClock()
    ensures T.ClockAt(RmMessage, 42) == T.ClockMatch(T.Clock(10, 0, T.Am), 47)
  {
    RmClockPoints();
    T.ClockAtHour(RmMessage, 42);
    T.ClockAtMinute(RmMessage, 42);
    SpaceRunExact(RmMessage, 44, 1);
    assert T.SpacesEnd(RmMessage, 42) == 45;
    assert T.MeridiemAt(RmMessage, 45) == T.Am;
  }

  /** The characters of "10 AM". */
  lemma RmClockPoints()
    ensures |RmMessage| == 47 && RmMessage[42] == '1' && RmMessage[43] == '0' && RmMessage[44] == ' '
    ensures OccursAtCi(RmMessage, "am", 45)
  {
    RmLayout();
    OccursAtCiChars(RmMessage, "am", 45);
  }

  lemma RmAtClockAt()
    ensures Rx.MatchAt(Rx.AtClock, RmMessage, 39) == Some(Rx.Groups(RmTime, ""))
  {
    RmLayout();
    RmClock();
    OccursAtCiChars(RmMessage, "at ", 39);
    assert RmMessage[42..47] == RmTime;
    AtClockCase(RmMessage, 39);
  }

  /** The time is the clock after "at". */
  lemma RmTimeGroup()
    ensures Rx.Match(Rx.AtClock, RmMessage) == Some(Rx.Groups(RmTime, ""))
  {
    RmNoEarlierClock();
    RmAtClockAt();
    Rx.MatchLeftmostAt(Rx.AtClock, RmMessage, 39);
  }

  /** test.js:24: the time of the reminder is "10 AM". */
  lemma RmTimeScenario()
    ensures TimeOf(RmMessage) == "10 AM"
  {
    RmTimeGroup();
    assert Rx.FirstCapture(TimePatterns, RmMessage, 0, Rx.Groups(RmTime, ""));
  }

  /** The characters around the spaces of the message. */
  lemma RmPoints()
    ensures |RmMessage| == 47 && RmMessage[17] == ' ' && RmMessage[18] == 't' && RmMessage[19] == 'h'
    ensures RmMessage[21] == ' ' && RmMessage[22] == 'd'
    ensures RmMessage[29] == ' ' && RmMessage[30] == 't' && RmMessage[31] == 'o'
  {
    RmLayout();
    RmTaskLayout();
  }

  lemma RmTomorrowAt()
    ensures OccursAtCi(RmMessage, "tomorrow", 30)
  {
    RmLayout();
    OccursAtCiChars(RmMessage, "tomorrow", 30);
  }

  /** Whitespace then "tomorrow" is where the task of a reminder may end. */
  lemma {:induction false} RemindStopTomorrow(s: string, c: nat)
    requires SpaceRun(s, c) > 0
    requires !OccursAtCi(s, "at", c + SpaceRun(s, c)) && OccursAtCi(s, "tomorrow", c + SpaceRun(s, c))
    ensures Rx.RestEnd(Rx.RemindStop, s, c) == Some(c + SpaceRun(s, c) + 8)
  {}

  /** One space followed by a character that starts no time word and is no digit is
      no place for the task to end. */
  lemma {:induction false} RemindNoStop(s: string, c: nat)
    requires c + 2 < |s| && IsSpace(s[c]) && !IsSpace(s[c + 1]) && !IsDigit(s[c + 1])
    requires Lower(s[c + 1]) != 'a' && Lower(s[c + 1]) != 'o'
    requires Lower(s[c + 1]) == 't' ==> Lower(s[c + 2]) != 'o'
    ensures Rx.RestEnd(Rx.RemindStop, s, c).None?
  {
    SpaceRunExact(s, c, 1);
    var p := c + SpaceRun(s, c);
    assert !OccursAtCi(s, "at", p) by { NotOccursAtCi(s, "at", p, 0); }
    assert !OccursAtCi(s, "on", p) by { NotOccursAtCi(s, "on", p, 0); }
    assert !OccursAtCi(s, "tomorrow", p) && !OccursAtCi(s, "today", p) by {
      RemindNoDayWord(s, p);
    }
  }

  /** Neither "tomorrow" nor "today" starts where there is no "t" followed by "o". */
  lemma {:induction false} RemindNoDayWord(s: string, p: nat)
    requires p + 1 < |s| && (Lower(s[p]) == 't' ==> Lower(s[p + 1]) != 'o')
    ensures !OccursAtCi(s, "tomorrow", p) && !OccursAtCi(s, "today", p)
  {
    if Lower(s[p]) == 't' {
      NotOccursAtCi(s, "tomorrow", p, 1);
      NotOccursAtCi(s, "today", p, 1);
    } else {
      NotOccursAtCi(s, "tomorrow", p, 0);
      NotOccursAtCi(s, "today", p, 0);
    }
  }

  /** After "dentist", a space and "tomorrow" end the task. */
  lemma RmStopAfterTask()
    ensures Rx.RestEnd(Rx.RemindStop, RmMessage, 29) == Some(38)
  {
    RmPoints();
    SpaceRunExact(RmMessage, 29, 1);
    NotOccursAtCi(RmMessage, "at", 30, 1);
    RmTomorrowAt();
    RemindStopTomorrow(RmMessage, 29);
  }

  /** The space after "call" is followed by "th", which starts no time word. */
  lemma RmNoStopAfterCall()
    ensures Rx.RestEnd(Rx.RemindStop, RmMessage, 17).None?
  {
    RmPoints();
    RemindNoStop(RmMessage, 17);
  }

  /** The space after "the" is followed by "d", which starts no time word. */
  lemma RmNoStopAfterThe()
    ensures Rx.RestEnd(Rx.RemindStop, RmMessage, 21).None?
  {
    RmPoints();
    RemindNoStop(RmMessage, 21);
  }

  /** A letter of the task is no space, so no stop is there. */
  lemma RmNoStopAtLetters()
    ensures forall x :: 14 <= x < 29 && x != 17 && x != 21 ==> Rx.RestEnd(Rx.RemindStop, RmMessage, x).None?
  {
    RmLayout();
    RmTaskLayout();
    forall x | 14 <= x < 29 && x != 17 && x != 21 ensures Rx.RestEnd(Rx.RemindStop, RmMessage, x).None? {
      assert IsAsciiLetter(RmMessage[x]);
      SpaceRunExact(RmMessage, x, 0);
    }
  }

  /** Within the task no space is followed by a time word or a digit. */
  lemma RmNoStopInTask()
    ensures Rx.NoStopIn(Rx.RemindStop, RmMessage, 14, 29)
  {
    RmNoStopAfterCall();
    RmNoStopAfterThe();
    RmNoStopAtLetters();
  }

  lemma RmTaskStop()
    ensures Rx.FirstStop(Rx.RemindStop, RmMessage, 14, 47) == Some(29)
  {
    assert |RmMessage| == 47;
    RmStopAfterTask();
    RmNoStopInTask();
    Rx.FirstStopAt(Rx.RemindStop, RmMessage, 14, 47, 29);
  }

  lemma RmUntilTimeAt()
    ensures Rx.MatchRemindUntilTime(RmMessage, 0) == Some(Rx.Groups(RmTask, ""))
  {
    RmRemindAt();
    RmLine();
    RmTaskStop();
    RmTaskSlice();
  }

  lemma RmRemindAt()
    ensures OccursAtCi(RmMessage, "remind me to ", 0)
  {
    RmLayout();
    OccursAtCiChars(RmMessage, "remind me to ", 0);
  }

  lemma RmLine()
    ensures |RmMessage| == 47 && LineRun(RmMessage, 13) == 34
  {
    RmCharacters();
    LineRunToEnd(RmMessage, 13);
  }

  lemma RmTaskSlice()
    ensures RmMessage[13..29] == RmTask
  {
    RmLayout();
  }

  /** The remind-until-time pattern is tried by its own matcher. */
  lemma {:induction false} RemindUntilTimeCase(s: string, j: nat)
    ensures Rx.MatchAt(Rx.RemindUntilTime, s, j) == Rx.MatchRemindUntilTime(s, j)
  {}

  /** The task runs from "to" up to " tomorrow". */
  lemma RmTaskGroup()
    ensures Rx.Match(Rx.RemindUntilTime, RmMessage) == Some(Rx.Groups(RmTask, ""))
  {
    RmUntilTimeAt();
    RemindUntilTimeCase(RmMessage, 0);
    Rx.MatchLeftmostAt(Rx.RemindUntilTime, RmMessage, 0);
  }

  /** test.js:24: the reminder is to "call the dentist" at "10 AM". */
  lemma ReminderScenario()
    ensures ReminderInfoOf(RmMessage) == ReminderInfo("call the dentist", "10 AM")
  {
    RmTimeScenario();
    RmTaskGroup();
    RmTaskTrimmed();
    RmTaskText();
  }

  lemma RmTaskTrimmed()
    ensures Trim(RmTask) == RmTask
  {
    RmTaskLayout();
    TrimTrimmed(RmTask);
  }

  lemma RmTaskText()
    ensures RmTask == "call the dentist" && RmTime == "10 AM"
  {}

  /** A word found without case is contained in the lowered text. */
  lemma {:induction false} LowerContains(s: string, w: string, i: nat)
    requires OccursAtCi(s, w, i)
    ensures Contains(LowerStr(s), w)
  {
    var l := LowerStr(s);
    assert l[i..i + |w|] == LowerStr(s[i..i + |w|]);
    assert OccursAt(l, w, i);
  }

  /** The message says "tomorrow", the time phrase does not. */
  lemma RmTomorrow()
    ensures T.MentionsTomorrow(RmMessage) && !T.MentionsTomorrow(RmTime)
  {
    RmTomorrowAt();
    LowerContains(RmMessage, "tomorrow", 30);
    assert |LowerStr(RmTime)| == 5;
  }

  /** "10 AM" read alone is the clock the match read: ten in the morning. */
  lemma RmTimeClock()
    ensures T.FindClock(RmTime) == Some(T.Clock(10, 0, T.Am))
  {
    RmClock();
    RmAtClockAt();
    AtClockCase(RmMessage, 39);
  }

  /** test.js:24, sent before ten in the morning: the time handed to `parseTimeToISO`
      alone puts the reminder on the same day, although the message asks for the next. */
  lemma ReminderTomorrowLost(now: int)
    requires now - T.DayStart(now) <= 10 * T.HourMs
    ensures T.DayStart(T.ResolveLocal(ReminderInfoOf(RmMessage).time, now)) == T.DayStart(now)
    ensures T.DayStart(T.ResolveLocalFor(ReminderInfoOf(RmMessage).time, T.MentionsTomorrow(RmMessage), now))
      == T.DayStart(now) + T.DayMs
  {
    ReminderScenario();
    RmTaskText();
    RmTomorrow();
    RmTimeClock();
    TenInTheMorning();
    TomorrowLostAsWritten(RmMessage, RmTime, now);
  }

  lemma TenInTheMorning()
    ensures T.Hour24(T.Clock(10, 0, T.Am)) == 10 && T.TimeOfDay(T.Clock(10, 0, T.Am)) == 10 * T.HourMs
  {}

  // ------------------------------------------------------------ a translation

  const TrLead := "Translate "
  const TrText := "Hello"
  const TrTo := " to "
  const TrLanguage := "Tamil"
  const TrMessage := TrLead + "\"" + TrText + "\"" + TrTo + TrLanguage

  /** Where each piece of the message stands. */
  lemma TrLayout()
    ensures |TrMessage| == 26 && TrMessage[10] == '"' && TrMessage[16] == '"'
    ensures forall k :: 0 <= k < 10 ==> TrMessage[k] == TrLead[k]
    ensures forall k :: 11 <= k < 16 ==> TrMessage[k] == TrText[k - 11]
    ensures forall k :: 17 <= k < 21 ==> TrMessage[k] == TrTo[k - 17]
    ensures forall k :: 21 <= k < 26 ==> TrMessage[k] == TrLanguage[k - 21]
  {}

  /** No line terminator anywhere, and no quote inside the text. */
  lemma TrCharacters()
    ensures forall k :: 0 <= k < |TrMessage| ==> !IsLineTerminator(TrMessage[k])
    ensures forall k :: 11 <= k < 16 ==> !IsQuote(TrMessage[k])
  {
    TrLayout();
    forall k | 0 <= k < |TrMessage| ensures !IsLineTerminator(TrMessage[k]) && (11 <= k < 16 ==> !IsQuote(TrMessage[k])) {
      if k < 10 { assert TrLead[k] in TrLead; }
      else if 11 <= k < 16 { assert TrText[k - 11] in TrText; }
      else if 17 <= k < 21 { assert TrTo[k - 17] in TrTo; }
      else if 21 <= k { assert TrLanguage[k - 21] in TrLanguage; }
    }
  }

  /** "Translate" and one space open the message. */
  lemma TrOpening()
    ensures OccursAtCi(TrMessage, "translate", 0) && SpaceRun(TrMessage, 9) == 1
  {
    TrLayout();
    OccursAtCiChars(TrMessage, "translate", 0);
    SpaceRunExact(TrMessage, 9, 1);
  }

  /** After the closing quote: a space, "to", a space and the five letters of "Tamil". */
  lemma TrToRuns()
    ensures SpaceRun(TrMessage, 17) == 1 && OccursAtCi(TrMessage, "to", 18) && SpaceRun(TrMessage, 20) == 1
    ensures WordRun(TrMessage, 21) == 5 && TrMessage[21..26] == TrLanguage
  {
    TrLayout();
    SpaceRunExact(TrMessage, 17, 1);
    OccursAtCiChars(TrMessage, "to", 18);
    SpaceRunExact(TrMessage, 20, 1);
    forall k | 21 <= k < 26 ensures IsWordChar(TrMessage[k]) {
      assert TrLanguage[k - 21] in TrLanguage;
    }
    WordRunExact(TrMessage, 21, 5);
  }

  lemma TrToWord()
    ensures Rx.ToWord(TrMessage, 17) == Some(TrLanguage) && Rx.LanguageStart(TrMessage, 17) == 21
  {
    TrToRuns();
  }

  /** The quote after the text, then "to" and a word, end the text. */
  lemma TrStop()
    ensures Rx.RestEnd(Rx.QuotedToStop, TrMessage, 16) == Some(26)
  {
    TrLayout();
    TrToRuns();
    TrToWord();
  }

  lemma TrNoStop()
    ensures Rx.NoStopIn(Rx.QuotedToStop, TrMessage, 12, 16)
  {
    TrCharacters();
    forall x | 12 <= x < 16 ensures Rx.RestEnd(Rx.QuotedToStop, TrMessage, x).None? {
      assert !IsQuote(TrMessage[x]);
    }
  }

  lemma TrTextStop()
    ensures Rx.FirstStop(Rx.QuotedToStop, TrMessage, 12, 26) == Some(16)
  {
    TrLayout();
    TrStop();
    TrNoStop();
    Rx.FirstStopAt(Rx.QuotedToStop, TrMessage, 12, 26, 16);
  }

  /** The quoted text, and the word after "to". */
  lemma TrQuotedToAt()
    ensures Rx.QuotedToAt(TrMessage, 10) == Some(Rx.Groups(TrText, TrLanguage))
  {
    TrLayout();
    TrCharacters();
    LineRunToEnd(TrMessage, 11);
    TrTextStop();
    TrToWord();
    assert TrMessage[11..16] == TrText;
  }

  lemma TrQuotedAt()
    ensures Rx.MatchTranslateQuoted(TrMessage, 0) == Some(Rx.Groups(TrText, TrLanguage))
  {
    TrOpening();
    TrLayout();
    TrQuotedToAt();
  }

  lemma TrQuotedGroups()
    ensures Rx.Match(Rx.TranslateQuoted, TrMessage) == Some(Rx.Groups(TrText, TrLanguage))
  {
    TrQuotedAt();
    Rx.MatchLeftmostAt(Rx.TranslateQuoted, TrMessage, 0);
  }

  /** test.js:50: the text to translate is "Hello", the language "Tamil". */
  lemma TranslationScenario()
    ensures TranslationSlotsOf(TrMessage) == TranslationSlots("Hello", "Tamil")
  {
    TrQuotedGroups();
    assert Rx.FirstCapture(TranslatePatterns, TrMessage, 0, Rx.Groups(TrText, TrLanguage));
  }
}
