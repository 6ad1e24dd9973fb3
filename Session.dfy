/** The page's chat state: the conversation log `context`, the last reply
    `lastBotMessage` and the one pending reply timer `botTimer`, with the
    operations that change them (`appendMessage`'s push, `respondAsBot`,
    `sendMessage` and the timer's callback). */
module Session {
  import opened Text
  import opened Reply

  /** A reply waiting for its timer, with the delay it was scheduled for. */
  datatype PendingReply = PendingReply(reply: string, delay: nat)

  class ChatSession {
    var context: seq<Message>
    var lastBotMessage: string
    var pending: Option<PendingReply>

    /** The timer only ever holds the reply scheduled last, which is the
        stored last reply, with the delay its length gives. */
    ghost predicate Valid()
      reads this
    {
      pending.Some? ==>
        pending.value.reply == lastBotMessage && pending.value.delay == Delay(lastBotMessage)
    }

    /** The page as loaded: an empty log, no reply yet, no timer. */
    constructor()
      ensures Valid()
      ensures context == [] && lastBotMessage == [] && pending == None
    {
      context := [];
      lastBotMessage := [];
      pending := None;
    }

    /** `appendMessage`'s `context.push`: one entry at the end of the log,
        earlier entries untouched. */
    method Append(role: Role, text: string, stamp: int)
      modifies this
      ensures context == old(context) + [Message(role, text, stamp)]
      ensures lastBotMessage == old(lastBotMessage) && pending == old(pending)
    {
      context := context + [Message(role, text, stamp)];
    }

    /** `respondAsBot`: the reply to `text` against the log as it stands,
        varied against the previous reply, becomes the last reply; any
        pending timer is cancelled and the new reply alone is scheduled.
        The log is not touched. */
    method Respond(text: string, now: Instant)
      requires Valid()
      modifies this
      ensures Valid()
      ensures context == old(context)
      ensures lastBotMessage == Vary(BotReply(text, old(context), now), old(lastBotMessage))
      ensures lastBotMessage != old(lastBotMessage)
      ensures pending == Some(PendingReply(lastBotMessage, Delay(lastBotMessage)))
    {
      var reply := Vary(BotReply(text, context, now), lastBotMessage);
      lastBotMessage := reply;
      if pending.Some? {
        pending := None;
      }
      pending := Some(PendingReply(reply, Delay(reply)));
    }

    /** `sendMessage`: a blank input (empty or all white space) is refused
        and changes nothing; any other is logged as the user's and then
        answered, so the reply is chosen against a log that holds the input
        itself but none of the replies still pending. */
    method Send(text: string, now: Instant) returns (accepted: bool)
      requires Valid()
      modifies this
      ensures Valid()
      ensures accepted <==> Trim(text) != []
      ensures !accepted ==>
        context == old(context) && lastBotMessage == old(lastBotMessage) && pending == old(pending)
      ensures accepted ==> context == old(context) + [Message(User, text, now.millis)]
      ensures accepted ==>
        lastBotMessage == Vary(BotReply(text, context, now), old(lastBotMessage))
      ensures accepted ==> pending == Some(PendingReply(lastBotMessage, Delay(lastBotMessage)))
    {
      if Trim(text) == [] {
        return false;
      }
      Append(User, text, now.millis);
      Respond(text, now);
      accepted := true;
    }

    /** The timer's callback at time `stamp`: the pending reply, if any, is
        logged as the bot's and the timer cleared; by the invariant it is
        the last reply stored. With no timer pending nothing happens. */
    method Fire(stamp: int) returns (delivered: Option<string>)
      requires Valid()
      modifies this
      ensures Valid()
      ensures pending == None && lastBotMessage == old(lastBotMessage)
      ensures old(pending).Some? ==>
        delivered == Some(old(pending).value.reply) && delivered == Some(old(lastBotMessage)) &&
        context == old(context) + [Message(Bot, old(pending).value.reply, stamp)]
      ensures old(pending).None? ==> delivered == None && context == old(context)
    {
      match pending
      case Some(p) =>
        Append(Bot, p.reply, stamp);
        pending := None;
        delivered := Some(p.reply);
      case None =>
        delivered := None;
    }
  }

  /** Two inputs sent before the first reply's timer fires: the first reply
      is cancelled and never logged, and the log ends with exactly one bot
      message, the reply to the second input; a second firing adds
      nothing. */
  method SupersededReplyNeverDelivered(a: string, b: string, t1: Instant, t2: Instant, s1: int, s2: int)
    returns (log: seq<Message>, first: string, second: string)
    requires Trim(a) != [] && Trim(b) != []
    ensures first == Vary(BotReply(a, [Message(User, a, t1.millis)], t1), [])
    ensures second == Vary(BotReply(b, [Message(User, a, t1.millis), Message(User, b, t2.millis)], t2), first)
    ensures log == [Message(User, a, t1.millis), Message(User, b, t2.millis), Message(Bot, second, s1)]
  {
    var u1, u2 := Message(User, a, t1.millis), Message(User, b, t2.millis);
    var chat := new ChatSession();
    var _ := chat.Send(a, t1);
    Singleton(chat.context, u1);
    first := chat.lastBotMessage;
    var _ := chat.Send(b, t2);
    Pair(chat.context, u1, u2);
    second := chat.lastBotMessage;
    var _ := chat.Fire(s1);
    var _ := chat.Fire(s2);
    log := chat.context;
    Triple(log, u1, u2, Message(Bot, second, s1));
  }

  /** Facts about short logs, kept apart from the session's state. */
  lemma Singleton(log: seq<Message>, m: Message)
    requires log == [] + [m]
    ensures log == [m]
  {
  }

  lemma Pair(log: seq<Message>, m1: Message, m2: Message)
    requires log == [m1] + [m2]
    ensures log == [m1, m2]
  {
  }

  lemma Triple(log: seq<Message>, m1: Message, m2: Message, m3: Message)
    requires log == [m1, m2] + [m3]
    ensures log == [m1, m2, m3]
  {
  }
}
