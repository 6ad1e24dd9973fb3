/** The scripted reply engine: `getBotReply` (an ordered, first-match-wins
    list of rules over the lower-cased input), `varyResponse` (the
    de-duplication of consecutive replies) and the typing delay that
    `respondAsBot` gives a reply. */
module Reply {
  import opened Text

  datatype Option<T> = None | Some(value: T)

  datatype Role = User | Bot

  /** One entry of the conversation log; `stamp` is its creation time. */
  datatype Message = Message(role: Role, text: string, stamp: int)

  /** One reading of the host clock: its time value and its locale-dependent
      renderings as a time of day and as a calendar date, taken as given. */
  datatype Instant = Instant(millis: int, time: string, date: string)

  /** Rules 1 to 6 of the engine; a reply that none of them gives is a
      fallback. */
  datatype Rule = GreetRule | TimeRule | DateRule | HelpRule | JokeRule | ExpandRule

  /** The order in which the rules are tried. */
  const Priority: seq<Rule> := [GreetRule, TimeRule, DateRule, HelpRule, JokeRule, ExpandRule]

  /** The whole inputs (after trimming) that count as a greeting. */
  const Greetings: seq<string> := ["hi", "hello", "hey", "hya"]

  /** The alternatives of each rule's `\b(...)\b` pattern. */
  function Keywords(r: Rule): seq<string> {
    match r
    case GreetRule => Greetings
    case TimeRule => ["time", "what time", "current time"]
    case DateRule => ["date", "today", "what day"]
    case HelpRule => ["help", "problem", "issue", "support"]
    case JokeRule => ["joke", "funny"]
    case ExpandRule => ["detail", "explain", "more", "expand"]
  }

  /** Whether rule `r` fires on the lower-cased input `lower`: the greeting
      rule on a `length` of at most 3 (before trimming) or on a trimmed
      input that is exactly a greeting, the others on a word-bounded
      occurrence of one of their alternatives. */
  predicate Triggers(r: Rule, lower: string) {
    match r
    case GreetRule => Utf16Length(lower) <= 3 || Trim(lower) in Greetings
    case _ => ContainsWord(lower, Keywords(r))
  }

  /** First match wins, as a reference: the position of the first rule of
      `rules`, from position `i` on, that fires on `lower`. */
  function FirstMatchFrom(rules: seq<Rule>, lower: string, i: nat): (r: Option<nat>)
    requires i <= |rules|
    ensures r.Some? ==> i <= r.value < |rules| && Triggers(rules[r.value], lower)
    ensures r.Some? ==> forall j :: i <= j < r.value ==> !Triggers(rules[j], lower)
    ensures r.None? <==> forall j :: i <= j < |rules| ==> !Triggers(rules[j], lower)
    decreases |rules| - i
  {
    if i == |rules| then None
    else if Triggers(rules[i], lower) then Some(i)
    else FirstMatchFrom(rules, lower, i + 1)
  }

  function FirstMatch(rules: seq<Rule>, lower: string): Option<nat> {
    FirstMatchFrom(rules, lower, 0)
  }

  /** The decision the engine takes on one input. */
  datatype Outcome =
    | Greet | TellTime | TellDate | OfferHelp | TellJoke
    | ExpandOn(last: string) | AskWhichPart
    | GoodQuestion | AskForContext

  /** The rule an outcome comes from; None for the two fallbacks. */
  function RuleOf(o: Outcome): Option<Rule> {
    if o.Greet? then Some(GreetRule)
    else if o.TellTime? then Some(TimeRule)
    else if o.TellDate? then Some(DateRule)
    else if o.OfferHelp? then Some(HelpRule)
    else if o.TellJoke? then Some(JokeRule)
    else if o.ExpandOn? || o.AskWhichPart? then Some(ExpandRule)
    else None
  }

  /** The index of the most recent bot message of the log, found by
      scanning from the end. */
  function LastBotIndex(log: seq<Message>): (r: Option<nat>)
    ensures r.Some? ==> r.value < |log| && log[r.value].role == Bot
    ensures r.Some? ==> forall j :: r.value < j < |log| ==> log[j].role != Bot
    ensures r.None? <==> forall j :: 0 <= j < |log| ==> log[j].role != Bot
  {
    if log == [] then None
    else if log[|log| - 1].role == Bot then Some(|log| - 1)
    else LastBotIndex(log[..|log| - 1])
  }

  /** `context.slice().reverse().find(m => m.role === 'bot')`. */
  function LastBot(log: seq<Message>): Option<Message> {
    match LastBotIndex(log)
    case Some(i) => Some(log[i])
    case None => None
  }

  /** The fallback test on the untouched input: the trimmed text ends in
      `?`, `.` or `!`, or its `split(' ')` has more than 8 pieces. */
  predicate AsksDirectly(text: string) {
    EndsWithOneOf(Trim(text), {'?', '.', '!'}) || |Split(Trim(text), ' ')| > 8
  }

  /** Rule 6's two outcomes: expand on the most recent bot message, or ask
      which part to expand on when the log holds none. */
  function ExpandOutcome(log: seq<Message>): (o: Outcome)
    ensures o.ExpandOn? || o.AskWhichPart?
    ensures o.ExpandOn? <==> exists i :: 0 <= i < |log| && log[i].role == Bot
    ensures o.ExpandOn? ==> o == ExpandOn(log[LastBotIndex(log).value].text)
  {
    match LastBot(log)
    case Some(m) => ExpandOn(m.text)
    case None => AskWhichPart
  }

  /** The two fallbacks: a question-like input (a final `?`, `.` or `!`, or
      at least 8 spaces, as `split(' ')` counts them) gets the framed
      generic reply, any other the plain request for context. */
  function FallbackOutcome(text: string): (o: Outcome)
    ensures o == GoodQuestion || o == AskForContext
    ensures o == GoodQuestion <==>
      EndsWithOneOf(Trim(text), {'?', '.', '!'}) || Count(Trim(text), ' ') >= 8
  {
    if AsksDirectly(text) then GoodQuestion else AskForContext
  }

  /** `getBotReply`'s choice: the rules in order, the first that fires wins. */
  function Select(text: string, log: seq<Message>): Outcome {
    var lower := AsciiLower(text);
    if Triggers(GreetRule, lower) then Greet
    else if Triggers(TimeRule, lower) then TellTime
    else if Triggers(DateRule, lower) then TellDate
    else if Triggers(HelpRule, lower) then OfferHelp
    else if Triggers(JokeRule, lower) then TellJoke
    else if Triggers(ExpandRule, lower) then ExpandOutcome(log)
    else FallbackOutcome(text)
  }

  const GreetText: string := "Hi there! Could you tell me a little more about what you need help with? 😊"
  const HelpText: string := "Sure — can you describe the issue in one or two sentences? I can suggest steps or resources."
  const JokeText: string := "Why did the developer go broke? Because he used up all his cache. 😄 Want another one?"
  const AskWhichPartText: string := "Could you say which part you want more detail on?"
  const Generic: string := "I might not have all the details on that, but I can help reason it out or ask a clarifying question — could you tell me more?"
  const AskForContextText: string := "Thanks for asking — can you give a bit more context so I can give a useful answer?"

  function TimeText(time: string): string {
    "The current time is " + time + ". Would you like help with timezones or scheduling?"
  }

  function DateText(date: string): string {
    "Today is " + date + ". Anything else I can help with?"
  }

  function ExpandText(last: string): string {
    "Sure — here are more details: " + last + " If you want, I can give an example or step-by-step instructions."
  }

  /** The text of each outcome. */
  function ReplyText(o: Outcome, now: Instant): string {
    match o
    case Greet => GreetText
    case TellTime => TimeText(now.time)
    case TellDate => DateText(now.date)
    case OfferHelp => HelpText
    case TellJoke => JokeText
    case ExpandOn(last) => ExpandText(last)
    case AskWhichPart => AskWhichPartText
    case GoodQuestion => "Good question — " + Generic
    case AskForContext => AskForContextText
  }

  /** `getBotReply(text)` against the log `log` at the instant `now`. */
  function BotReply(text: string, log: seq<Message>, now: Instant): string {
    ReplyText(Select(text, log), now)
  }

  /** The text `varyResponse` adds to a reply equal to the previous one. */
  const Suffix: string := " (also, feel free to ask me to expand)"

  /** `varyResponse`: a reply never equals the previous one; it is the base
      reply itself exactly when that differs from the previous one, and the
      base reply with the suffix otherwise. */
  function Vary(reply: string, previous: string): (r: string)
    ensures r != previous
    ensures r == reply <==> reply != previous
    ensures r != reply ==> r == reply + Suffix
  {
    if reply == previous then reply + Suffix else reply
  }

  /** `Math.min(1800, 400 + reply.length * 20)`: between 400 and 1800, at the
      cap exactly from 70 UTF-16 code units on, and 400 plus 20 per code
      unit below it. */
  function Delay(reply: string): (d: nat)
    ensures 400 <= d <= 1800
    ensures d == 1800 <==> Utf16Length(reply) >= 70
    ensures d < 1800 ==> d == 400 + 20 * Utf16Length(reply)
  {
    var n := 400 + Utf16Length(reply) * 20;
    if n < 1800 then n else 1800
  }
}
