/** What the reply engine promises: rule order, the meaning of each rule's
    reply, the expand and fallback rules, and de-duplication. */
module ReplyFacts {
  import opened Text
  import opened Reply

  /** The first match over the priority list, rule by rule. */
  lemma FirstMatchOfPriority(lower: string)
    ensures FirstMatch(Priority, lower) ==
      if Triggers(GreetRule, lower) then Some(0)
      else if Triggers(TimeRule, lower) then Some(1)
      else if Triggers(DateRule, lower) then Some(2)
      else if Triggers(HelpRule, lower) then Some(3)
      else if Triggers(JokeRule, lower) then Some(4)
      else if Triggers(ExpandRule, lower) then Some(5)
      else None
  {
    assert Priority[0] == GreetRule && Priority[1] == TimeRule && Priority[2] == DateRule;
    assert Priority[3] == HelpRule && Priority[4] == JokeRule && Priority[5] == ExpandRule;
    assert FirstMatchFrom(Priority, lower, 6) == None;
  }

  /** The first match is at position `k` exactly when rule `k` fires and
      no earlier one does. */
  lemma FirstMatchAt(lower: string, k: nat)
    requires k < |Priority|
    ensures FirstMatch(Priority, lower) == Some(k) <==>
      Triggers(Priority[k], lower) && forall j :: 0 <= j < k ==> !Triggers(Priority[j], lower)
  {
  }

  /** The expand rule has two outcomes, and so has the fallback. */
  lemma RuleOfBothOutcomes(o: Outcome)
    ensures o.ExpandOn? || o.AskWhichPart? ==> RuleOf(o) == Some(ExpandRule)
    ensures o.GoodQuestion? || o.AskForContext? ==> RuleOf(o) == None
  {
  }

  /** The rule of the outcome, branch by branch of the engine. */
  lemma RuleOfSelect(text: string, log: seq<Message>)
    ensures RuleOf(Select(text, log)) ==
      var lower := AsciiLower(text);
      if Triggers(GreetRule, lower) then Some(GreetRule)
      else if Triggers(TimeRule, lower) then Some(TimeRule)
      else if Triggers(DateRule, lower) then Some(DateRule)
      else if Triggers(HelpRule, lower) then Some(HelpRule)
      else if Triggers(JokeRule, lower) then Some(JokeRule)
      else if Triggers(ExpandRule, lower) then Some(ExpandRule)
      else None
  {
    var lower := AsciiLower(text);
    RuleOfChain(Triggers(GreetRule, lower), Triggers(TimeRule, lower), Triggers(DateRule, lower),
      Triggers(HelpRule, lower), Triggers(JokeRule, lower), Triggers(ExpandRule, lower),
      Select(text, log), ExpandOutcome(log), FallbackOutcome(text));
  }

  /** The step of RuleOfSelect, over the six rules' verdicts. */
  lemma RuleOfChain(g: bool, t: bool, d: bool, h: bool, j: bool, e: bool, o: Outcome, eo: Outcome, fo: Outcome)
    requires eo.ExpandOn? || eo.AskWhichPart?
    requires fo == GoodQuestion || fo == AskForContext
    requires o == if g then Greet else if t then TellTime else if d then TellDate
      else if h then OfferHelp else if j then TellJoke else if e then eo else fo
    ensures RuleOf(o) == if g then Some(GreetRule) else if t then Some(TimeRule) else if d then Some(DateRule)
      else if h then Some(HelpRule) else if j then Some(JokeRule) else if e then Some(ExpandRule) else None
  {
    RuleOfBothOutcomes(eo);
    RuleOfBothOutcomes(fo);
  }

  /** Any value given by the rule-by-rule chain is the rule at the first
      match of the priority list. */
  lemma ChainIsFirstMatch(lower: string, x: Option<Rule>)
    requires x ==
      if Triggers(GreetRule, lower) then Some(GreetRule)
      else if Triggers(TimeRule, lower) then Some(TimeRule)
      else if Triggers(DateRule, lower) then Some(DateRule)
      else if Triggers(HelpRule, lower) then Some(HelpRule)
      else if Triggers(JokeRule, lower) then Some(JokeRule)
      else if Triggers(ExpandRule, lower) then Some(ExpandRule)
      else None
    ensures FirstMatch(Priority, lower).Some? ==> x == Some(Priority[FirstMatch(Priority, lower).value])
    ensures FirstMatch(Priority, lower).None? ==> x == None
  {
    FirstMatchOfPriority(lower);
    ChainStep(Triggers(GreetRule, lower), Triggers(TimeRule, lower), Triggers(DateRule, lower),
      Triggers(HelpRule, lower), Triggers(JokeRule, lower), Triggers(ExpandRule, lower),
      FirstMatch(Priority, lower), x);
  }

  /** The step of ChainIsFirstMatch, over the six rules' verdicts. */
  lemma ChainStep(g: bool, t: bool, d: bool, h: bool, j: bool, e: bool, m: Option<nat>, x: Option<Rule>)
    requires m == if g then Some(0) else if t then Some(1) else if d then Some(2)
      else if h then Some(3) else if j then Some(4) else if e then Some(5) else None
    requires x == if g then Some(GreetRule) else if t then Some(TimeRule) else if d then Some(DateRule)
      else if h then Some(HelpRule) else if j then Some(JokeRule) else if e then Some(ExpandRule) else None
    ensures m.Some? ==> m.value < |Priority| && x == Some(Priority[m.value])
    ensures m.None? ==> x == None
  {
    assert Priority == [GreetRule, TimeRule, DateRule, HelpRule, JokeRule, ExpandRule];
  }

  /** The outcome of each of rules 1 to 5, which do not look at the log. */
  function FixedOutcome(r: Rule): Outcome
    requires r != ExpandRule
  {
    match r
    case GreetRule => Greet
    case TimeRule => TellTime
    case DateRule => TellDate
    case HelpRule => OfferHelp
    case JokeRule => TellJoke
  }

  /** Each of rules 1 to 5 has one outcome, so an outcome from one of them
      is fixed by its rule. */
  lemma OutcomeOfFixedRule(o: Outcome, r: Rule)
    requires r != ExpandRule
    ensures RuleOf(o) == Some(r) <==> o == FixedOutcome(r)
  {
  }

  /** The rule an input's outcome comes from is the first rule of the
      priority list that fires on it; a fallback is chosen exactly when no
      rule fires. */
  lemma SelectFollowsPriority(text: string, log: seq<Message>)
    ensures FirstMatch(Priority, AsciiLower(text)).Some? ==>
      RuleOf(Select(text, log)) == Some(Priority[FirstMatch(Priority, AsciiLower(text)).value])
    ensures FirstMatch(Priority, AsciiLower(text)).None? ==> RuleOf(Select(text, log)) == None
  {
    RuleOfSelect(text, log);
    ChainIsFirstMatch(AsciiLower(text), RuleOf(Select(text, log)));
  }

  /** A rule that fires shadows every rule after it in the priority list. */
  lemma EarlierRuleWins(text: string, log: seq<Message>, i: nat, j: nat)
    requires i < j < |Priority|
    requires Triggers(Priority[i], AsciiLower(text))
    ensures RuleOf(Select(text, log)) != Some(Priority[j])
  {
    SelectFollowsPriority(text, log);
    var m := FirstMatch(Priority, AsciiLower(text));
    assert m.Some? && m.value <= i;
    DistinctPositions(m.value, j, RuleOf(Select(text, log)));
  }

  /** Two positions of the priority list hold different rules. */
  lemma DistinctPositions(p: nat, j: nat, x: Option<Rule>)
    requires p < j < |Priority|
    requires x == Some(Priority[p])
    ensures x != Some(Priority[j])
  {
    assert Priority == [GreetRule, TimeRule, DateRule, HelpRule, JokeRule, ExpandRule];
  }

  /** The last three characters of each outcome's text, which differ from
      outcome to outcome. */
  function Tail(o: Outcome): string {
    match o
    case Greet => "? 😊"
    case TellTime => "ng?"
    case TellDate => "th?"
    case OfferHelp => "es."
    case TellJoke => "ne?"
    case ExpandOn(_) => "ns."
    case AskWhichPart => "on?"
    case GoodQuestion => "re?"
    case AskForContext => "er?"
  }

  lemma ConcatTail(a: string, b: string)
    requires |b| >= 3
    ensures (a + b)[|a + b| - 3..] == b[|b| - 3..]
  {
  }

  lemma FixedTails()
    ensures GreetText[|GreetText| - 3..] == Tail(Greet)
    ensures HelpText[|HelpText| - 3..] == Tail(OfferHelp)
    ensures JokeText[|JokeText| - 3..] == Tail(TellJoke)
    ensures AskWhichPartText[|AskWhichPartText| - 3..] == Tail(AskWhichPart)
    ensures AskForContextText[|AskForContextText| - 3..] == Tail(AskForContext)
    ensures Generic[|Generic| - 3..] == Tail(GoodQuestion)
  {
  }

  lemma TemplateTails(now: Instant, last: string)
    ensures TimeText(now.time)[|TimeText(now.time)| - 3..] == Tail(TellTime)
    ensures DateText(now.date)[|DateText(now.date)| - 3..] == Tail(TellDate)
    ensures ExpandText(last)[|ExpandText(last)| - 3..] == Tail(ExpandOn(last))
  {
    var b := ". Would you like help with timezones or scheduling?";
    ConcatTail("The current time is " + now.time, b);
    b := ". Anything else I can help with?";
    ConcatTail("Today is " + now.date, b);
    b := " If you want, I can give an example or step-by-step instructions.";
    ConcatTail("Sure — here are more details: " + last, b);
  }

  lemma ReplyEndsWithTail(o: Outcome, now: Instant)
    ensures |ReplyText(o, now)| >= 3
    ensures ReplyText(o, now)[|ReplyText(o, now)| - 3..] == Tail(o)
  {
    FixedTails();
    if o.ExpandOn? {
      TemplateTails(now, o.last);
    } else {
      TemplateTails(now, []);
    }
    if o.GoodQuestion? {
      ConcatTail("Good question — ", Generic);
    }
  }

  lemma TailDetermines(o1: Outcome, o2: Outcome)
    requires Tail(o1) == Tail(o2)
    ensures o1.ExpandOn? == o2.ExpandOn?
    ensures !o1.ExpandOn? ==> o1 == o2
  {
    var t1, t2 := Tail(o1), Tail(o2);
    assert t1[0] == t2[0] && t1[1] == t2[1] && t1[2] == t2[2];
  }

  /** Different outcomes give different texts, whatever the clock says and
      whatever the expanded message was: the reply tells which branch of
      the engine produced it. */
  lemma ReplyTextInjective(o1: Outcome, n1: Instant, o2: Outcome, n2: Instant)
    requires ReplyText(o1, n1) == ReplyText(o2, n2)
    ensures o1 == o2
  {
    ReplyEndsWithTail(o1, n1);
    ReplyEndsWithTail(o2, n2);
    TailDetermines(o1, o2);
    if o1.ExpandOn? {
      var p := "Sure — here are more details: ";
      var q := " If you want, I can give an example or step-by-step instructions.";
      var t := ReplyText(o1, n1);
      assert t == p + o1.last + q && t == p + o2.last + q;
      assert |o1.last| == |o2.last|;
      assert o1.last == t[|p|..|p| + |o1.last|];
      assert o2.last == t[|p|..|p| + |o2.last|];
    }
  }

  /** The engine's reply is an outcome's text exactly when the engine chose
      that outcome. */
  lemma ReplyIdentifiesOutcome(text: string, log: seq<Message>, now: Instant, o: Outcome)
    ensures BotReply(text, log, now) == ReplyText(o, now) <==> Select(text, log) == o
  {
    if BotReply(text, log, now) == ReplyText(o, now) {
      ReplyTextInjective(Select(text, log), now, o, now);
    }
  }

  /** The rules of the priority list are distinct, so a rule names its
      position. */
  lemma PositionOfRule(m: Option<nat>, x: Option<Rule>, k: nat)
    requires k < |Priority|
    requires m.Some? ==> m.value < |Priority| && x == Some(Priority[m.value])
    requires m.None? ==> x == None
    ensures x == Some(Priority[k]) <==> m == Some(k)
  {
    assert Priority == [GreetRule, TimeRule, DateRule, HelpRule, JokeRule, ExpandRule];
  }

  /** The propositional step of KeywordRuleReply, over abstract values. */
  lemma KeywordStep(same: bool, o: Outcome, m: Option<nat>, k: nat)
    requires k < 5
    requires same <==> o == FixedOutcome(Priority[k])
    requires m.Some? ==> m.value < |Priority| && RuleOf(o) == Some(Priority[m.value])
    requires m.None? ==> RuleOf(o) == None
    ensures same <==> m == Some(k)
  {
    OutcomeOfFixedRule(o, Priority[k]);
    PositionOfRule(m, RuleOf(o), k);
  }

  /** Rules 1 to 5: the reply is rule `k`'s text exactly when rule `k` is
      the first rule of the priority list that fires (so an input holding
      several keywords gets the earliest rule's reply). */
  lemma KeywordRuleReply(text: string, log: seq<Message>, now: Instant, k: nat)
    requires k < 5
    ensures BotReply(text, log, now) == ReplyText(FixedOutcome(Priority[k]), now) <==>
      FirstMatch(Priority, AsciiLower(text)) == Some(k)
  {
    ReplyIdentifiesOutcome(text, log, now, FixedOutcome(Priority[k]));
    SelectFollowsPriority(text, log);
    KeywordStep(BotReply(text, log, now) == ReplyText(FixedOutcome(Priority[k]), now),
      Select(text, log), FirstMatch(Priority, AsciiLower(text)), k);
  }

  /** Rule 1 comes first: the reply is the greeting exactly when the input
      is at most 3 UTF-16 code units long (before any trimming) or is, once
      lower-cased and trimmed, one of the greetings, whatever keywords it
      also holds. */
  lemma GreetingFirst(text: string, log: seq<Message>, now: Instant)
    ensures BotReply(text, log, now) == GreetText <==>
      Utf16Length(text) <= 3 || Trim(AsciiLower(text)) in Greetings
  {
    AsciiLowerKeepsLength(text);
    KeywordRuleReply(text, log, now, 0);
    FirstMatchOfPriority(AsciiLower(text));
  }

  /** A word-bounded match of `p + w`, where `p` ends in a space and `w`
      starts with a word character, holds a word-bounded match of `w`. */
  lemma InnerWordAt(s: string, j: int, p: string, w: string)
    requires WordAt(s, j, p + w)
    requires p != [] && p[|p| - 1] == ' ' && w != [] && IsWordChar(w[0])
    ensures WordAt(s, j + |p|, w)
  {
    var pw := p + w;
    assert s[j..j + |pw|] == pw;
    assert s[j + |p|..j + |pw|] == pw[|p|..] == w;
    assert s[j + |p| - 1] == pw[|p| - 1] == ' ';
    assert s[j + |p|] == pw[|p|] == w[0];
  }

  /** `\b(time|what time|current time)\b` matches exactly where `\btime\b`
      does: the two longer alternatives can never add a match. */
  lemma TimeAlternativesRedundant(s: string)
    ensures ContainsWord(s, Keywords(TimeRule)) <==> ContainsWord(s, ["time"])
  {
    var ws := Keywords(TimeRule);
    ContainsWordMeaning(s, ws);
    ContainsWordMeaning(s, ["time"]);
    if ContainsWord(s, ws) {
      var j, k :| 0 <= j <= |s| && 0 <= k < |ws| && WordAt(s, j, ws[k]);
      if k == 1 {
        assert ws[k] == "what " + "time";
        InnerWordAt(s, j, "what ", "time");
        assert WordAt(s, j + 5, ["time"][0]);
      } else if k == 2 {
        assert ws[k] == "current " + "time";
        InnerWordAt(s, j, "current ", "time");
        assert WordAt(s, j + 8, ["time"][0]);
      } else {
        assert WordAt(s, j, ["time"][0]);
      }
    }
    if ContainsWord(s, ["time"]) {
      var j, k :| 0 <= j <= |s| && 0 <= k < 1 && WordAt(s, j, ["time"][k]);
      assert WordAt(s, j, ws[0]);
    }
  }

  /** Matching respects word boundaries: `timeout` holds `time`, but not
      between word boundaries, so it does not fire the time rule. */
  lemma TimeoutIsNotTime()
    ensures !Triggers(TimeRule, "timeout")
  {
    var s := "timeout";
    var ws := Keywords(TimeRule);
    ContainsWordMeaning(s, ws);
    forall j, k | 0 <= j <= |s| && 0 <= k < |ws|
      ensures !WordAt(s, j, ws[k])
    {
      if j == 0 && k == 0 {
        assert !Boundary(s, 4) by { assert s[3] == 'e' && s[4] == 'o'; }
      }
    }
  }

  /** The time rule, on the input as typed: the reply gives the time exactly
      when the greeting rule does not fire and the lower-cased input holds
      the word `time` between word boundaries. */
  lemma TimeReply(text: string, log: seq<Message>, now: Instant)
    ensures BotReply(text, log, now) == TimeText(now.time) <==>
      !Triggers(GreetRule, AsciiLower(text)) && ContainsWord(AsciiLower(text), ["time"])
  {
    var lower := AsciiLower(text);
    assert Priority[0] == GreetRule && Priority[1] == TimeRule;
    KeywordRuleReply(text, log, now, 1);
    FirstMatchAt(lower, 1);
    TimeAlternativesRedundant(lower);
  }

  /** Rule 6: the expand rule echoes the most recent bot message of the log,
      or asks which part to expand on when the bot has not spoken yet. */
  lemma ExpandReply(text: string, log: seq<Message>, now: Instant)
    requires FirstMatch(Priority, AsciiLower(text)) == Some(5)
    ensures LastBotIndex(log).Some? ==>
      BotReply(text, log, now) == ExpandText(log[LastBotIndex(log).value].text)
    ensures LastBotIndex(log).None? ==> BotReply(text, log, now) == AskWhichPartText
  {
    var lower := AsciiLower(text);
    FirstMatchOfPriority(lower);
    LateOutcomes(Triggers(GreetRule, lower), Triggers(TimeRule, lower), Triggers(DateRule, lower),
      Triggers(HelpRule, lower), Triggers(JokeRule, lower), Triggers(ExpandRule, lower),
      FirstMatch(Priority, lower), Select(text, log), ExpandOutcome(log), FallbackOutcome(text));
    ExpandOutcomeText(log, now, Select(text, log));
  }

  /** The text of rule 6's outcome. */
  lemma ExpandOutcomeText(log: seq<Message>, now: Instant, o: Outcome)
    requires o == ExpandOutcome(log)
    ensures LastBotIndex(log).Some? ==> ReplyText(o, now) == ExpandText(log[LastBotIndex(log).value].text)
    ensures LastBotIndex(log).None? ==> ReplyText(o, now) == AskWhichPartText
  {
  }

  /** The last two branches of the engine, over the six rules' verdicts:
      the outcome is the expand rule's when only that rule fires, and the
      fallback's when none does. */
  lemma LateOutcomes(g: bool, t: bool, d: bool, h: bool, j: bool, e: bool,
                     m: Option<nat>, o: Outcome, eo: Outcome, fo: Outcome)
    requires m == if g then Some(0) else if t then Some(1) else if d then Some(2)
      else if h then Some(3) else if j then Some(4) else if e then Some(5) else None
    requires o == if g then Greet else if t then TellTime else if d then TellDate
      else if h then OfferHelp else if j then TellJoke else if e then eo else fo
    ensures m == Some(5) ==> o == eo
    ensures m == None ==> o == fo
  {
  }

  /** The fallback: when no rule fires, the reply is the framed generic one
      exactly when the trimmed input ends in `?`, `.` or `!` or holds at
      least 8 spaces, and the plain request for context otherwise. */
  lemma FallbackReply(text: string, log: seq<Message>, now: Instant)
    requires FirstMatch(Priority, AsciiLower(text)) == None
    ensures BotReply(text, log, now) == "Good question — " + Generic <==>
      EndsWithOneOf(Trim(text), {'?', '.', '!'}) || Count(Trim(text), ' ') >= 8
    ensures BotReply(text, log, now) != "Good question — " + Generic ==>
      BotReply(text, log, now) == AskForContextText
  {
    var lower := AsciiLower(text);
    FirstMatchOfPriority(lower);
    LateOutcomes(Triggers(GreetRule, lower), Triggers(TimeRule, lower), Triggers(DateRule, lower),
      Triggers(HelpRule, lower), Triggers(JokeRule, lower), Triggers(ExpandRule, lower),
      FirstMatch(Priority, lower), Select(text, log), ExpandOutcome(log), FallbackOutcome(text));
    ReplyIdentifiesOutcome(text, log, now, GoodQuestion);
  }

  /** A user message added to the log leaves the last bot message where it
      was; so the reply to an input never expands on that input itself. */
  lemma LastBotIgnoresUserMessages(log: seq<Message>, m: Message)
    requires m.role == User
    ensures LastBotIndex(log + [m]) == LastBotIndex(log)
  {
    assert (log + [m])[..|log|] == log;
  }

  /** Repeating one base reply alternates between the plain and the
      suffixed text, so no two consecutive replies are equal. */
  lemma RepeatedReplyAlternates(reply: string, previous: string)
    ensures var a := Vary(reply, previous);
      var b := Vary(reply, a);
      b != a && Vary(reply, b) == a && {a, b} == {reply, reply + Suffix}
  {
    var a := Vary(reply, previous);
    var b := Vary(reply, a);
    assert Suffix != [];
    assert reply + Suffix != reply by { assert |reply + Suffix| > |reply|; }
  }
}
