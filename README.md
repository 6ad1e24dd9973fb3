# Chat engine of chatBot (`script.js`), modelled in Dafny

`script.js` runs a scripted helper bot in the browser. The model covers its
decision logic and its state:

- **Reply selection**, `getBotReply`. An ordered, first-match-wins list of
  rules runs over the lower-cased input: greeting or short input, time, date,
  help, joke, expand on the last bot message. If no rule fires, a two-way
  fallback picks the reply.
- **De-duplication**, `varyResponse`. A reply equal to the previous reply
  gets the suffix ` (also, feel free to ask me to expand)`.
- **The scheduler**, `respondAsBot`. The delay is
  `min(1800, 400 + 20 * reply.length)`. Only one reply timer exists: a new
  reply cancels the pending one.
- **The log and the input guard**. `appendMessage` pushes onto `context`.
  `sendMessage` refuses blank input.
- **`escapeHtml`**.

Layout:

- `Text.dfy` holds the JavaScript string primitives the engine relies on, in
  the engine's own terms:
  - `toLowerCase`, restricted to ASCII;
  - `trim`, with the ECMAScript white-space and line-terminator set;
  - `split(' ')`, with a `join` partner;
  - `length`, counted in UTF-16 code units;
  - the test `\b(w1|...|wn)\b`, as a scan over start positions, with a
    lemma giving its meaning as "some alternative occurs between word
    boundaries". Word characters are `[A-Za-z0-9_]`.
- `Html.dfy` holds `escapeHtml` and its inverse `Unescape`. Their round trip
  is proved.
- `Reply.dfy` holds the engine:
  - the rules (`Rule`, `Priority`, `Triggers`) and a reference first-match
    function over the priority list;
  - `Select`, the code's if-chain, which returns an `Outcome`;
  - `ReplyText`, the exact reply strings;
  - `LastBotIndex`, the "last bot message" search;
  - `Vary` and `Delay`.
- `ReplyFacts.dfy` holds what the engine promises:
  - the if-chain follows the priority list;
  - each rule's reply text is produced exactly when that rule is the first to
    fire;
  - the greeting rule beats every keyword;
  - word boundaries matter;
  - the expand and fallback rules;
  - replies alternate under de-duplication.
  Different outcomes give different texts, so a statement about the reply
  text is a statement about the rule that fired.
- `Session.dfy` holds `ChatSession`, a class with the page's state
  `context`, `lastBotMessage` and `pending` (the `botTimer` and the reply it
  will deliver). Its methods are `Append` (`context.push`), `Respond`
  (`respondAsBot`), `Send` (`sendMessage`) and `Fire` (the timer's
  callback). A client method shows that a reply superseded before its timer
  fires is never logged.

Clocks are parameters. An `Instant` bundles a time value (the message
timestamp) with its locale renderings as a time of day and as a date, which
the model takes as given. `Fire(stamp)` stands for the `setTimeout` callback
running at time `stamp`.

Details of the code the model keeps:

- The `<= 3` length test is on the lower-cased input before trimming. It
  counts UTF-16 code units, so a character outside the Basic Multilingual
  Plane, such as 😊, counts as 2.
- The keyword tests run on the untrimmed lower-cased input.
- The fallback counts pieces of `trim().split(' ')`, which splits on single
  spaces. Two adjacent spaces make an empty piece, so "more than 8 pieces"
  is "at least 8 spaces". Tabs and other white space do not separate.
- The fallback tests look at the input as typed, not lower-cased.

## Model

| member | source | states |
|---|---|---|
| Text.AsciiLower | script.js:52 | the result has the input's length and holds, position by position, the lower-case form of each ASCII letter and every other character unchanged |
| Text.AsciiLowerKeepsWordChars | script.js:52-58 | lower-casing turns no word character into a non-word character or back, so it moves no `\b` |
| Text.AsciiLowerKeepsLength | script.js:52-55 | lower-casing keeps the UTF-16 `length` |
| Text.Utf16Length | script.js:55 | `length` lies between the number of characters and twice that, and equals it when every character is in the Basic Multilingual Plane |
| Text.LeadingSpaces | script.js:55 | the count of leading white space: all of those characters are white space and the next one is not |
| Text.TrailingSpaces | script.js:55 | the count of trailing white space: all of those characters are white space and the one before them is not |
| Text.Trim | script.js:55 | the result starts after the leading white space and everything after it is white space, it neither starts nor ends with white space, and it is empty exactly when the input is all white space; `TrimIsMiddle` gives the slice itself |
| Text.TrimIsMiddle | script.js:55 | the trimmed text is the slice of the input that starts after the leading white space |
| Text.TrimOfTrimmed | script.js:55 | a string that neither starts nor ends with white space is its own trim |
| Text.TrimIdempotent | script.js:83 | trimming twice is trimming once |
| Text.Count | script.js:83 | the number of occurrences of a character is at most the length, and zero exactly when the character is absent |
| Text.Split | script.js:83 | `split(' ')` gives one more piece than there are spaces, and no piece holds a space |
| Text.JoinSplit | script.js:83 | joining the pieces of `split` with the separator gives back the input |
| Text.SearchFromFinds | script.js:58 | the position-by-position scan finds a match exactly when one starts at some position from the scan's start on |
| Text.ContainsWord | script.js:58-70 | definition: the scan from position 0; its meaning is stated by `SearchFromFinds` and `ContainsWordMeaning` |
| Text.ContainsWordMeaning | script.js:58-70 | the regular-expression test for word-bounded alternatives holds of `s` exactly when some alternative occurs in `s` with a word boundary on either side |
| Html.EscapeChar | script.js:38 | each of `& < > " '` becomes an entity starting with `&`, and every other character stands for itself |
| Html.Escape | script.js:37-39 | the output is at least as long as the input, holds no `<`, `>`, `"` or `'`, and equals the input when the input holds none of the five special characters |
| Html.DecodeFirst | script.js:38 | the reader takes one character from between 1 and all of the remaining characters |
| Html.DecodeEscaped | script.js:38 | an escaped character is read back as itself, from exactly the characters it was escaped to |
| Html.Unescape | script.js:38 | definition: the reference reader of the five entities; `DecodeEscaped` and `UnescapeEscape` state that it inverts the escaping |
| Html.UnescapeEscape | script.js:37-39 | escaping loses nothing: reading the escaped text back gives the original text |
| Reply.FirstMatchFrom | script.js:51-77 | the reference first-match: a result names a rule that fires with no earlier rule firing, and there is no result exactly when no rule fires |
| Reply.Triggers | script.js:55-70 | definition: the test of each rule on the lower-cased input; see `GreetingFirst`, `TimeReply`, `TimeAlternativesRedundant` and `TimeoutIsNotTime` |
| Reply.LastBotIndex | script.js:72 | the index found holds a bot message with no bot message after it, and there is none exactly when the log holds no bot message |
| Reply.LastBot | script.js:72 | definition: the message at `LastBotIndex`; see `ExpandOutcome` and `LastBotIgnoresUserMessages` |
| Reply.ExpandOutcome | script.js:72-76 | rule 6 expands exactly when the log holds a bot message, and then on the text of the most recent one; otherwise it asks which part to expand on |
| Reply.FallbackOutcome | script.js:80-90 | the framed generic reply is chosen exactly when the trimmed input ends in `?`, `.` or `!` or holds at least 8 spaces; otherwise the plain request for context is chosen |
| Reply.AsksDirectly | script.js:83 | definition: the fallback test; `FallbackOutcome` restates it with a space count in place of the piece count |
| Reply.Select | script.js:51-91 | definition: the if-chain of rules; see `RuleOfSelect`, `SelectFollowsPriority`, `EarlierRuleWins` and `KeywordRuleReply` |
| Reply.ReplyText | script.js:56-90 | definition: the reply strings; `ReplyTextInjective` states that different outcomes give different texts |
| Reply.BotReply | script.js:51-91 | definition: the reply text of `Select`'s outcome; see `ReplyIdentifiesOutcome`, `GreetingFirst`, `TimeReply`, `ExpandReply` and `FallbackReply` |
| Reply.Vary | script.js:94-100 | the result never equals the previous reply; it is the base reply exactly when that differs from the previous reply, and the base reply plus the suffix otherwise |
| Reply.Delay | script.js:113 | the delay lies between 400 and 1800; it is 1800 exactly from 70 UTF-16 code units on, and 400 plus 20 per code unit below that |
| ReplyFacts.FirstMatchOfPriority | script.js:55-77 | over the priority list, the first match is rule 1 if it fires, else rule 2 if it fires, and so on down to rule 6, with no match when none fires |
| ReplyFacts.FirstMatchAt | script.js:55-77 | the first match is at position `k` exactly when rule `k` fires and no earlier rule does |
| ReplyFacts.RuleOfSelect | script.js:51-91 | the rule behind the engine's outcome is, branch by branch, the first of the if-chain's tests that holds |
| ReplyFacts.ChainIsFirstMatch | script.js:51-77 | the rule the if-chain picks is the rule at the reference first match of the priority list |
| ReplyFacts.SelectFollowsPriority | script.js:51-91 | the outcome comes from the first rule of the priority list that fires, and it is a fallback exactly when no rule fires |
| ReplyFacts.EarlierRuleWins | script.js:55-77 | once a rule fires, no later rule in the priority list gives the outcome |
| ReplyFacts.ReplyTextInjective | script.js:56-90 | different outcomes give different reply texts, whatever the clock says and whatever message is expanded on |
| ReplyFacts.ReplyIdentifiesOutcome | script.js:51-91 | the reply is an outcome's text exactly when the engine chose that outcome |
| ReplyFacts.KeywordRuleReply | script.js:55-69 | for rules 1 to 5, the reply is that rule's text exactly when the rule is the first of the priority list to fire, so an input holding several keywords gets the earliest rule's reply |
| ReplyFacts.GreetingFirst | script.js:55-57 | the reply is the greeting exactly when the untrimmed input is at most 3 UTF-16 code units long or its lower-cased trimmed form is `hi`, `hello`, `hey` or `hya`, whatever keywords it also holds |
| ReplyFacts.TimeAlternativesRedundant | script.js:58 | the time pattern with its three alternatives `time`, `what time` and `current time` matches exactly where the single word `time` does |
| ReplyFacts.TimeReply | script.js:58-60 | the reply gives the time exactly when the greeting rule does not fire and the lower-cased input holds `time` between word boundaries |
| ReplyFacts.TimeoutIsNotTime | script.js:58 | `timeout` does not fire the time rule |
| ReplyFacts.ExpandReply | script.js:70-77 | when rule 6 is the first to fire, the reply expands on the most recent bot message of the log, or asks which part to expand on when there is none |
| ReplyFacts.FallbackReply | script.js:80-90 | when no rule fires, the reply is `Good question — ` plus the generic text exactly when the trimmed input ends in `?`, `.` or `!` or holds at least 8 spaces, and the request for context otherwise |
| ReplyFacts.LastBotIgnoresUserMessages | script.js:72 | logging a user message does not move the most recent bot message, so a reply never expands on its own input |
| ReplyFacts.RepeatedReplyAlternates | script.js:94-105 | repeating one base reply alternates between the plain text and the text with the suffix, so no two consecutive replies are equal |
| Session.ChatSession.constructor | script.js:10-12 | the page starts with an empty log, no last reply and no pending timer |
| Session.ChatSession.Append | script.js:33 | one entry goes on the end of the log, earlier entries are untouched, and nothing else changes |
| Session.ChatSession.Respond | script.js:103-118 | the new last reply is the engine's reply to the current log, varied against the previous reply; it differs from the previous reply; the only pending reply is the new one with its delay; the log is unchanged |
| Session.ChatSession.Send | script.js:121-131 | blank input is refused and changes nothing; other input is logged as the user's, and the reply is then chosen against the log that holds it, with that reply alone pending |
| Session.ChatSession.Fire | script.js:114-117 | a pending reply is logged as the bot's and the timer cleared, and the reply delivered is the last reply `Respond` stored; with nothing pending nothing changes |
| Session.SupersededReplyNeverDelivered | script.js:103-131 | after two inputs sent before any timer fires, and two firings, the log holds both inputs and exactly one bot message, the reply to the second input; the first reply is never logged |

## Left out

- The DOM is not modelled. This covers building and showing a message
  (script.js:21-32), scrolling (script.js:44-48) and the shake animation
  (script.js:124-125). They are browser output with no effect on the state.
- The event wiring is browser glue and is not modelled: form submit and the
  Enter key (script.js:134-148), textarea resizing (script.js:151-154), the
  focus handler (script.js:170). `Send` stands for what they call.
- The theme toggle and its `localStorage` value (script.js:157-165) are not
  modelled. The chat logic never reads them.
- `toLocaleTimeString` and `toLocaleDateString` (script.js:16, 62) depend on
  the host locale. Their output enters as the `time` and `date` strings of
  an `Instant`.
- Real timer waits are not modelled. `setTimeout`/`clearTimeout` become the
  `pending` field, and the callback running becomes an explicit `Fire` step.
  The 80 ms scroll timer is left out with the DOM.
- Text.AsciiLower: `toLowerCase` is restricted to ASCII. Letters outside
  ASCII keep their case, and Unicode case mappings that change the length
  are not modelled.
- Text.ContainsWord: the regular-expression engine is reduced to
  word-bounded matching of literal alternatives, which is all the patterns
  use. Matching is on characters, not on UTF-16 code units.
- `sendMessage`'s `!text` guard for a missing (`null` or `undefined`) value
  is not modelled, because the model's input is always a string. The empty
  string is refused through the trim test.
- `window.ChatBuddy` (script.js:173-177) is host wiring. Its `getContext`
  copy is the `context` value itself, since a `seq` is a value.
- The `timestamp` of a message is kept as a number, not as a `Date`.
