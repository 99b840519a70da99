/** The assistant's fixed content: its jokes, quotes and general replies, each picked by
    an index the caller supplies in place of a random draw. Long literals are written as
    concatenations of short pieces, which keeps the proofs that they hold no `[` small. */
module Canned {
  // The jokes (`this.jokes`).
  const Joke1 := "Why did the AI go to " + "therapy? It had too " + "many deep learning " + "issues."
  const Joke2 := "I'd tell you a UDP " + "joke, but you might not " + "get it."
  const Joke3 := "Why do programmers " + "prefer dark mode? " + "Because light attracts " + "bugs."
  const Joke4 := "I'm not " + "procrastinating. I'm " + "doing side quests."
  const Joke5 := "Why did the developer " + "go broke? Because he " + "used up all his cache."
  const Joke6 := "My code works, but I " + "don't know why. That's " + "the real mystery."
  const Joke7 := "I told my computer I " + "needed a break. It gave " + "me a KitKat error."
  const Joke8 := "Debugging is like being " + "a detective in a crime " + "movie where you're also " + "the murderer."

  const Jokes: seq<string> := [Joke1, Joke2, Joke3, Joke4, Joke5, Joke6, Joke7, Joke8]

  // The quotes (`this.quotes`); the dash is U+2013.
  const Quote1 := "\"The obstacle is the " + "way.\" \U{2013} Marcus " + "Aurelius. Master " + "resistance, become " + "unstoppable."
  const Quote2 := "\"Discipline equals " + "freedom.\" \U{2013} Jocko " + "Willink. Structure " + "creates possibility."
  const Quote3 := "\"We are what we " + "repeatedly do. " + "Excellence, then, is " + "not an act, but a " + "habit.\" \U{2013} Aristotle"
  const Quote4 := "\"He who has a why to " + "live can bear almost " + "any how.\" \U{2013} Nietzsche"
  const Quote5 := "\"The best time to plant " + "a tree was 20 years " + "ago. The second best " + "time is now.\" \U{2013} Chinese " + "Proverb"
  const Quote6 := "\"Do not pray for an " + "easy life, pray for the " + "strength to endure a " + "difficult one.\" \U{2013} Bruce " + "Lee"
  const Quote7 := "\"The only way to do " + "great work is to love " + "what you do.\" \U{2013} Steve " + "Jobs"
  const Quote8 := "\"In the midst of chaos, " + "there is also " + "opportunity.\" \U{2013} Sun Tzu"

  const Quotes: seq<string> := [Quote1, Quote2, Quote3, Quote4, Quote5, Quote6, Quote7, Quote8]

  // The replies of `getGeneralResponse`.
  const General1 := "I'm here to help. Could " + "you be more specific?"
  const General2 := "Interesting. How may I " + "assist with that?"
  const General3 := "Noted. What would you " + "like me to do?"
  const General4 := "I'm at your service. " + "What's the " + "task?"

  const GeneralResponses: seq<string> := [General1, General2, General3, General4]

  const MotivationalKeywords: seq<string> := ["gym", "workout", "exercise", "run", "fitness", "training"]

  /** The element a random draw selects: `Math.floor(Math.random() * n)` is modelled by a
      caller-supplied `pick`, reduced modulo the list length. */
  function Pick(xs: seq<string>, pick: nat): (r: string)
    requires xs != []
    ensures r in xs
  {
    xs[pick % |xs|]
  }

  lemma Quote1Plain() ensures '[' !in Quote1 {}
  lemma Quote2Plain() ensures '[' !in Quote2 {}
  lemma Quote3Plain() ensures '[' !in Quote3 {}
  lemma Quote4Plain() ensures '[' !in Quote4 {}
  lemma Quote5Plain() ensures '[' !in Quote5 {}
  lemma Quote6Plain() ensures '[' !in Quote6 {}
  lemma Quote7Plain() ensures '[' !in Quote7 {}
  lemma Quote8Plain() ensures '[' !in Quote8 {}

  lemma Joke1Plain() ensures '[' !in Joke1 {}
  lemma Joke2Plain() ensures '[' !in Joke2 {}
  lemma Joke3Plain() ensures '[' !in Joke3 {}
  lemma Joke4Plain() ensures '[' !in Joke4 {}
  lemma Joke5Plain() ensures '[' !in Joke5 {}
  lemma Joke6Plain() ensures '[' !in Joke6 {}
  lemma Joke7Plain() ensures '[' !in Joke7 {}
  lemma Joke8Plain() ensures '[' !in Joke8 {}

  lemma General1Plain() ensures '[' !in General1 {}
  lemma General2Plain() ensures '[' !in General2 {}
  lemma General3Plain() ensures '[' !in General3 {}
  lemma General4Plain() ensures '[' !in General4 {}

  /** No joke holds a `[`. */
  lemma JokesPlain(k: nat)
    requires k < |Jokes|
    ensures '[' !in Jokes[k]
  {
    if k == 0 { Joke1Plain(); }
    else if k == 1 { Joke2Plain(); }
    else if k == 2 { Joke3Plain(); }
    else if k == 3 { Joke4Plain(); }
    else if k == 4 { Joke5Plain(); }
    else if k == 5 { Joke6Plain(); }
    else if k == 6 { Joke7Plain(); }
    else { Joke8Plain(); }
  }

  /** No general reply holds a `[`. */
  lemma GeneralPlain(k: nat)
    requires k < |GeneralResponses|
    ensures '[' !in GeneralResponses[k]
  {
    if k == 0 { General1Plain(); }
    else if k == 1 { General2Plain(); }
    else if k == 2 { General3Plain(); }
    else { General4Plain(); }
  }

  /** No quote holds a `[`, so none can open an action code. */
  lemma QuotesPlain(k: nat)
    requires k < |Quotes|
    ensures '[' !in Quotes[k]
  {
    if k == 0 { Quote1Plain(); }
    else if k == 1 { Quote2Plain(); }
    else if k == 2 { Quote3Plain(); }
    else if k == 3 { Quote4Plain(); }
    else if k == 4 { Quote5Plain(); }
    else if k == 5 { Quote6Plain(); }
    else if k == 6 { Quote7Plain(); }
    else { Quote8Plain(); }
  }

  const JokeTail := " Anything else I " + "can assist with?"
  const QuoteTail := "\n\nShall we put this " + "wisdom into action " + "today?"

  lemma TailsPlain() ensures '[' !in JokeTail && '[' !in QuoteTail {}

  /** `getJoke`: one of the jokes and an offer of further help; it opens no action code. */
  function JokeReply(pick: nat): (r: string)
    ensures exists k :: 0 <= k < |Jokes| && r == Jokes[k] + JokeTail
    ensures '[' !in r
  {
    JokesPlain(pick % |Jokes|);
    TailsPlain();
    Pick(Jokes, pick) + JokeTail
  }

  /** `getQuote`: one of the quotes and a call to action; it opens no action code. */
  function QuoteReply(pick: nat): (r: string)
    ensures exists k :: 0 <= k < |Quotes| && r == Quotes[k] + QuoteTail
    ensures '[' !in r
  {
    QuotesPlain(pick % |Quotes|);
    TailsPlain();
    Pick(Quotes, pick) + QuoteTail
  }

  /** `getGeneralResponse`: one of the general replies; it opens no action code. */
  function GeneralReply(pick: nat): (r: string)
    ensures r in GeneralResponses && '[' !in r
  {
    GeneralPlain(pick % |GeneralResponses|);
    Pick(GeneralResponses, pick)
  }
}
