/** The assistant object: its preferences, kept in the browser's local storage, the
    registered user it serves, and `processMessage`, which refuses anyone but the
    registered user and then routes the message, by the words it contains, to one of the
    reply builders. */
module Assistant {
  import opened Text
  import opened ActionCodec
  import opened Canned
  import opened Handlers

  const ObsceneKeywords: seq<string> :=
    ["porn", "pornographic", "xxx", "nude", "naked", "sex", "sexual", "erotic", "nsfw", "adult content", "explicit"]

  const Refusal := "I am sorry. I " + "cannot be of help."

  lemma RefusalPlain() ensures '[' !in Refusal {}

  /** What `processMessage` does with a message, in the order it tests for them; the six
      requests answered with an action code are told apart by the kind of that code. */
  datatype Intent = Obscene | JokeIntent | QuoteIntent | Coded(kind: Kind) | GeneralIntent

  /** The routing of `processMessage` over the lower-cased message: the first test that holds. */
  function Classify(lower: string): Intent {
    if ContainsAny(lower, ObsceneKeywords) then Obscene
    else if Contains(lower, "joke") then JokeIntent
    else if Contains(lower, "quote") then QuoteIntent
    else if Contains(lower, "remind") then Coded(ReminderKind)
    else if Contains(lower, "translate") then Coded(TranslateKind)
    else if Contains(lower, "call ") then Coded(CallKind)
    else if Contains(lower, "play video") || Contains(lower, "show video") then Coded(VideoKind)
    else if Contains(lower, "play song") || Contains(lower, "play music") then Coded(SongKind)
    else if Contains(lower, "message") || Contains(lower, "whatsapp") || Contains(lower, "text") then Coded(WhatsAppKind)
    else GeneralIntent
  }

  /** Whether a user is registered: a missing or empty name counts as none. */
  predicate Registered(registered: Option<string>) {
    registered.Some? && registered.value != []
  }

  /** `isUserAuthorized`: anyone while no user is registered, afterwards exactly that user. */
  function Authorized(registered: Option<string>, current: Option<string>): (r: bool)
    ensures Registered(registered) ==> (r <==> current == registered)
    ensures !Registered(registered) ==> r
  {
    !Registered(registered) || current == registered
  }

  /** `getUnauthorizedResponse`. */
  function Unauthorized(registered: Option<string>): (r: string)
    ensures Registered(registered) ==> r == "Sorry, I am only available for " + registered.value + "."
    ensures !Registered(registered) ==> r == "Sorry, I am only available for " + "my registered user" + "."
  {
    var name := if Registered(registered) then registered.value else "my registered user";
    "Sorry, I am only available for " + name + "."
  }

  /** The reply of the handler for requests answered with a code of kind `k`. */
  function CodedReply(k: Kind, m: string, pick: nat, nowUtc: int, offset: int): Reply {
    match k
    case ReminderKind => ReminderReply(m, pick, nowUtc, offset)
    case TranslateKind => TranslationReply(m)
    case CallKind => CallReply(m)
    case VideoKind => VideoReply(m)
    case SongKind => SongReply(m)
    case WhatsAppKind => WhatsAppReply(m)
  }

  /** The replies that need no handler: the refusal and the canned texts. */
  function CannedAnswer(i: Intent, pick: nat): string
    requires !i.Coded?
  {
    match i
    case Obscene => Refusal
    case JokeIntent => JokeReply(pick)
    case QuoteIntent => QuoteReply(pick)
    case GeneralIntent => GeneralReply(pick)
  }

  /** The reply `processMessage` builds for a message routed to `i`. */
  function AnswerFor(i: Intent, m: string, pick: nat, nowUtc: int, offset: int): string {
    if i.Coded? then Render(CodedReply(i.kind, m, pick, nowUtc, offset)) else CannedAnswer(i, pick)
  }

  /** The reply of `processMessage` to an authorized user. */
  function Answer(m: string, pick: nat, nowUtc: int, offset: int): string {
    AnswerFor(Classify(LowerStr(m)), m, pick, nowUtc, offset)
  }

  /** `processMessage`: the refusal for anyone but the registered user, else the answer. */
  function Respond(registered: Option<string>, m: string, current: Option<string>, pick: nat, nowUtc: int, offset: int): string {
    if !Authorized(registered, current) then Unauthorized(registered) else Answer(m, pick, nowUtc, offset)
  }

  /** Someone other than the registered user gets the refusal naming that user, whatever
      the message says, and the refusal carries no action code when the name holds no `[`. */
  lemma StrangerRefused(registered: Option<string>, m: string, current: Option<string>, pick: nat, nowUtc: int, offset: int)
    requires Registered(registered) && current != registered
    ensures Respond(registered, m, current, pick, nowUtc, offset)
      == "Sorry, I am only available for " + registered.value + "."
    ensures '[' !in registered.value ==> Parse(Respond(registered, m, current, pick, nowUtc, offset)) == []
  {
    var r := Respond(registered, m, current, pick, nowUtc, offset);
    if '[' !in registered.value {
      assert '[' !in r;
      ParsePlain(r);
    }
  }

  /** While no user is registered, every caller gets the same answer. */
  lemma UnregisteredServesAll(registered: Option<string>, m: string, c1: Option<string>, c2: Option<string>, pick: nat, nowUtc: int, offset: int)
    requires !Registered(registered)
    ensures Respond(registered, m, c1, pick, nowUtc, offset) == Respond(registered, m, c2, pick, nowUtc, offset)
    ensures Respond(registered, m, c1, pick, nowUtc, offset) == Answer(m, pick, nowUtc, offset)
  {}

  /** An obscene word wins over every other request, and the refusal carries no code. */
  lemma ObsceneFirst(m: string, pick: nat, nowUtc: int, offset: int)
    requires ContainsAny(LowerStr(m), ObsceneKeywords)
    ensures Answer(m, pick, nowUtc, offset) == Refusal
    ensures Parse(Answer(m, pick, nowUtc, offset)) == []
  {
    CannedRoute(m, Obscene, pick, nowUtc, offset);
    RefusalPlain();
    ParsePlain(Refusal);
  }

  /** A reminder that mentions a call ("remind me to call mom at 5") is a reminder: the
      reminder test comes before the call test. */
  lemma RemindBeforeCall(m: string)
    requires var lower := LowerStr(m);
      !ContainsAny(lower, ObsceneKeywords) && !Contains(lower, "joke") && !Contains(lower, "quote")
      && Contains(lower, "remind") && Contains(lower, "call ")
    ensures Classify(LowerStr(m)) == Coded(ReminderKind)
  {}

  /** Each handler's reply to a message without `[`, `]` or `|` is well formed and carries
      only a code of its own kind. */
  lemma CodedReplies(k: Kind, m: string, pick: nat, nowUtc: int, offset: int)
    requires PlainText(m)
    ensures CodedBy(CodedReply(k, m, pick, nowUtc, offset), k)
  {
    match k
    case ReminderKind => ReminderReplyParses(m, pick, nowUtc, offset);
    case TranslateKind => TranslationReplyParses(m);
    case CallKind => CallReplyParses(m);
    case VideoKind => VideoReplyParses(m);
    case SongKind => SongReplyParses(m);
    case WhatsAppKind => WhatsAppReplyParses(m);
  }

  /** The answers without a handler carry no code. */
  lemma PlainAnswers(i: Intent, pick: nat)
    requires !i.Coded?
    ensures Parse(CannedAnswer(i, pick)) == []
  {
    var a := CannedAnswer(i, pick);
    if i.Obscene? { RefusalPlain(); }
    assert '[' !in a;
    ParsePlain(a);
  }

  /** A coded answer parses back to at most one action, of its intent's kind. */
  lemma CodedReplyActions(k: Kind, m: string, pick: nat, nowUtc: int, offset: int)
    requires PlainText(m)
    ensures var acts := Parse(Render(CodedReply(k, m, pick, nowUtc, offset)));
      |acts| <= 1 && (acts != [] ==> acts[0].KindOf() == k)
  {
    CodedReplies(k, m, pick, nowUtc, offset);
    CodedByParse(CodedReply(k, m, pick, nowUtc, offset), k);
  }

  /** Every answer to a message without `[`, `]` or `|` carries at most one action code,
      and only of the kind its intent handles. */
  lemma AnswerActions(m: string, pick: nat, nowUtc: int, offset: int)
    requires PlainText(m)
    ensures var acts := Parse(Answer(m, pick, nowUtc, offset));
      |acts| <= 1
      && (acts != [] ==> Classify(LowerStr(m)).Coded? && acts[0].KindOf() == Classify(LowerStr(m)).kind)
  {
    var i := Classify(LowerStr(m));
    if i.Coded? {
      CodedReplyActions(i.kind, m, pick, nowUtc, offset);
    } else {
      PlainAnswers(i, pick);
    }
  }

  /** A message routed to no handler gets the refusal or a canned text. */
  lemma CannedRoute(m: string, i: Intent, pick: nat, nowUtc: int, offset: int)
    requires Classify(LowerStr(m)) == i && !i.Coded?
    ensures Answer(m, pick, nowUtc, offset) == CannedAnswer(i, pick)
    ensures i == Obscene ==> Answer(m, pick, nowUtc, offset) == Refusal
    ensures i == JokeIntent ==> Answer(m, pick, nowUtc, offset) == JokeReply(pick)
    ensures i == QuoteIntent ==> Answer(m, pick, nowUtc, offset) == QuoteReply(pick)
    ensures i == GeneralIntent ==> Answer(m, pick, nowUtc, offset) == GeneralReply(pick)
  {}

  /** A message routed to the handler for codes of kind `k` is answered by that handler. */
  lemma CodedAnswer(m: string, k: Kind, pick: nat, nowUtc: int, offset: int)
    requires Classify(LowerStr(m)) == Coded(k)
    ensures Answer(m, pick, nowUtc, offset) == Render(CodedReply(k, m, pick, nowUtc, offset))
    ensures k == ReminderKind ==> Answer(m, pick, nowUtc, offset) == Render(ReminderReply(m, pick, nowUtc, offset))
    ensures k == TranslateKind ==> Answer(m, pick, nowUtc, offset) == Render(TranslationReply(m))
    ensures k == CallKind ==> Answer(m, pick, nowUtc, offset) == Render(CallReply(m))
    ensures k == VideoKind ==> Answer(m, pick, nowUtc, offset) == Render(VideoReply(m))
    ensures k == SongKind ==> Answer(m, pick, nowUtc, offset) == Render(SongReply(m))
    ensures k == WhatsAppKind ==> Answer(m, pick, nowUtc, offset) == Render(WhatsAppReply(m))
  {}

  // ------------------------------------------------------------ the assistant object

  const UserNameKey := "mpaUserName"
  const GenderKey := "mpaGender"
  const LanguageKey := "mpaLanguage"

  /** `storage.getItem(key) || fallback`: a missing or empty entry gives the fallback. */
  function Stored(storage: map<string, string>, key: string, fallback: string): (r: string)
    ensures key in storage && storage[key] != [] ==> r == storage[key]
    ensures !(key in storage && storage[key] != []) ==> r == fallback
  {
    if key in storage && storage[key] != [] then storage[key] else fallback
  }

  /** The `MPA` class. `storage` is the browser's local storage, which the constructor
      reads the preferences from and the preference setters write to. */
  class Mpa {
    var userName: string
    var gender: string
    var language: string
    var registeredUser: Option<string>
    var storage: map<string, string>

    constructor(storage: map<string, string>)
      ensures userName == Stored(storage, UserNameKey, "MPA")
      ensures gender == Stored(storage, GenderKey, "neutral")
      ensures language == Stored(storage, LanguageKey, "en")
      ensures registeredUser == None && this.storage == storage
    {
      userName := Stored(storage, UserNameKey, "MPA");
      gender := Stored(storage, GenderKey, "neutral");
      language := Stored(storage, LanguageKey, "en");
      registeredUser := None;
      this.storage := storage;
    }

    method SetUserName(name: string)
      modifies this
      ensures userName == name && storage == old(storage)[UserNameKey := name]
      ensures gender == old(gender) && language == old(language) && registeredUser == old(registeredUser)
    {
      userName := name;
      storage := storage[UserNameKey := name];
    }

    method SetGender(g: string)
      modifies this
      ensures gender == g && storage == old(storage)[GenderKey := g]
      ensures userName == old(userName) && language == old(language) && registeredUser == old(registeredUser)
    {
      gender := g;
      storage := storage[GenderKey := g];
    }

    method SetLanguage(l: string)
      modifies this
      ensures language == l && storage == old(storage)[LanguageKey := l]
      ensures userName == old(userName) && gender == old(gender) && registeredUser == old(registeredUser)
    {
      language := l;
      storage := storage[LanguageKey := l];
    }

    /** `setRegisteredUser`; the registered user is not persisted. */
    method SetRegisteredUser(username: Option<string>)
      modifies this
      ensures registeredUser == username
      ensures userName == old(userName) && gender == old(gender) && language == old(language)
      ensures storage == old(storage)
    {
      registeredUser := username;
    }

    function GetRegisteredUser(): (r: Option<string>)
      reads this
      ensures r == registeredUser
    {
      registeredUser
    }

    function IsUserAuthorized(currentUser: Option<string>): (r: bool)
      reads this
      ensures Registered(registeredUser) ==> (r <==> currentUser == registeredUser)
      ensures !Registered(registeredUser) ==> r
    {
      Authorized(registeredUser, currentUser)
    }

    function UnauthorizedResponse(): string
      reads this
    {
      Unauthorized(registeredUser)
    }

    /** `processMessage`, testing for each request in turn. */
    method ProcessMessage(m: string, currentUser: Option<string>, pick: nat, nowUtc: int, offset: int)
      returns (reply: string)
      ensures reply == Respond(registeredUser, m, currentUser, pick, nowUtc, offset)
    {
      if !IsUserAuthorized(currentUser) {
        return UnauthorizedResponse();
      }
      var lower := LowerStr(m);
      if ContainsAny(lower, ObsceneKeywords) {
        CannedRoute(m, Obscene, pick, nowUtc, offset);
        return Refusal;
      }
      if Contains(lower, "joke") {
        CannedRoute(m, JokeIntent, pick, nowUtc, offset);
        return JokeReply(pick);
      }
      if Contains(lower, "quote") {
        CannedRoute(m, QuoteIntent, pick, nowUtc, offset);
        return QuoteReply(pick);
      }
      if Contains(lower, "remind") {
        reply := HandleReminder(m, pick, nowUtc, offset);
        CodedAnswer(m, ReminderKind, pick, nowUtc, offset);
        return;
      }
      if Contains(lower, "translate") {
        reply := HandleTranslation(m);
        CodedAnswer(m, TranslateKind, pick, nowUtc, offset);
        return;
      }
      if Contains(lower, "call ") {
        reply := Render(CallReply(m));
        CodedAnswer(m, CallKind, pick, nowUtc, offset);
        return;
      }
      if Contains(lower, "play video") || Contains(lower, "show video") {
        reply := HandleVideo(m);
        CodedAnswer(m, VideoKind, pick, nowUtc, offset);
        return;
      }
      if Contains(lower, "play song") || Contains(lower, "play music") {
        reply := HandleSong(m);
        CodedAnswer(m, SongKind, pick, nowUtc, offset);
        return;
      }
      if Contains(lower, "message") || Contains(lower, "whatsapp") || Contains(lower, "text") {
        reply := Render(WhatsAppReply(m));
        CodedAnswer(m, WhatsAppKind, pick, nowUtc, offset);
        return;
      }
      CannedRoute(m, GeneralIntent, pick, nowUtc, offset);
      return GeneralReply(pick);
    }
  }

  /** A preference set through the setters survives a reload: an assistant built from
      the storage left behind has it back, unless it was empty. */
  lemma PreferencesPersist(storage: map<string, string>, name: string, g: string, l: string)
    requires name != [] && g != [] && l != []
    ensures var s := storage[UserNameKey := name][GenderKey := g][LanguageKey := l];
      Stored(s, UserNameKey, "MPA") == name && Stored(s, GenderKey, "neutral") == g
      && Stored(s, LanguageKey, "en") == l
  {
    var s := storage[UserNameKey := name][GenderKey := g][LanguageKey := l];
    assert UserNameKey != GenderKey && UserNameKey != LanguageKey && GenderKey != LanguageKey;
  }

  /** Registering "Alice": Alice is served, Bob and an anonymous caller are turned away
      with "Sorry, I am only available for Alice.". */
  method RegisteredUserScenario() returns (aliceServed: bool, bobServed: bool, anonymousServed: bool, toBob: string)
    ensures aliceServed && !bobServed && !anonymousServed
    ensures toBob == "Sorry, I am only available for Alice."
  {
    var mpa := new Mpa(map[]);
    var before := mpa.IsUserAuthorized(Some("Bob"));
    assert before;
    mpa.SetRegisteredUser(Some("Alice"));
    aliceServed := mpa.IsUserAuthorized(Some("Alice"));
    bobServed := mpa.IsUserAuthorized(Some("Bob"));
    anonymousServed := mpa.IsUserAuthorized(None);
    toBob := mpa.ProcessMessage("Tell me a joke", Some("Bob"), 0, 0, 0);
  }
}
