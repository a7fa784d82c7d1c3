# Reminder bot core in Dafny

This project models the two algorithmic pieces of a Telegram reminder bot.

- **The reminder store and its scheduler tick** (`src/reminderManager.js`).
  - One map holds every chat's list of reminders, in insertion order.
  - One counter gives out ids for all chats.
  - `addReminder` appends a reminder.
  - `getUserReminders` lists a chat's unsent reminders.
  - `cancelReminder` splices out the first unsent reminder with a given id.
  - Once a minute `checkReminders` dispatches every due reminder. It then drops sent reminders whose time is a day old or more.
  - When a send succeeds, its callback marks the reminder sent.
- **The message/time extractor** `parseReminderCommand` (`src/utils.js`). It strips a leading "remind me" phrase and hands the rest to a date parser. The first date it finds becomes the reminder's time, and the text around that date becomes the message.
- **The intake guard** (`src/index.js`). It turns a chat message into a stored reminder, and refuses a time that has already passed.

The Dafny model has four modules:

- `JsString` (`js_string.dfy`): the JavaScript string built-ins the core relies on, with the language's edge cases written out.
  - `trim` with the full white-space set.
  - The ASCII-only case folding of a `/i` regular expression without the `u` flag.
  - `substring` with clamped indices.
  - `replace` with a string pattern.
  - `Number.prototype.toString` on the id counter, with its inverse.
- `Extractor` (`extractor.dfy`): `parseReminderCommand` as pure functions.
  - The date parser (chrono-node) is a parameter `DateParser`: a function from the text and the reference instant to the candidates found, leftmost first.
  - Each candidate carries its offset, its matched text and the instant it resolves to.
  - Lemmas that depend on the parser assume that the first candidate's text really is the slice of the parsed text at its offset (`Consistent`).
- `Reminders` (`reminders.dfy`): the `ReminderManager` class.
  - Its fields: `reminders: map<ChatId, seq<Reminder>>`, the counter, and `chats`. The `chats` field records the order in which chats were first added, which is the order in which a JavaScript `Map` iterates.
  - Every method keeps the invariant `Valid()`:
    - each list belongs to its chat;
    - ids are decimal numbers below the counter;
    - ids increase along each list.
  - The specification functions beside the class (`Keep`, `RemoveAt`, `FindCancellable`, `SetSent`, `Swept`, `DueAcross`) carry the lemmas.
- `Intake` (`intake.dfy`): the message handler. It ignores commands, refuses unparsable text and past times, and otherwise adds the reminder.

**Dispatch is asynchronous.** `sendReminder` starts a send whose `.then` callback runs only after the current tick has finished. The same tick's cleanup therefore still sees every dispatched reminder as unsent.

- `CheckReminders` returns the sequence of reminders it hands to `sendReminder`, in the order it visits them.
- `MarkSent(r)` is the success callback.
- A failed send changes nothing, so the reminder is dispatched again by the next tick (`FailedDispatchRetried`).
- The callback marks a reminder through the object it holds. Here that object is identified by chat and id, which pick out one record because ids strictly increase along a list.

**The third message branch never yields a message.** Take a consistent candidate whose trimmed text before and after both come out empty. Because `cleanText` is already trimmed, such a candidate is the whole of `cleanText`. Cutting out its first occurrence therefore leaves the empty string, so the result is `null` (`FallbackYieldsNothing`, `ParseCharacterised`). The model keeps the branch as the code writes it.

## Model

| member | source | states |
|---|---|---|
| JsString.Trim | src/utils.js:13 | the result has no white space at either end, and it is empty exactly when the input is all white space |
| JsString.TrimSlice | src/utils.js:13 | the trimmed text is the slice of the input at some offset, with only white space before and after it |
| JsString.TrimFixed | src/utils.js:13 | trimming leaves a string unchanged exactly when it is already trimmed |
| JsString.TrimBeforeSlice | src/utils.js:26 | the trimmed `substring(0, end)` occurs in the text and ends at or before `end` |
| JsString.TrimAfterSlice | src/utils.js:30 | the trimmed `substring(start)` occurs in the text and starts at or after `start` |
| JsString.Before | src/utils.js:26 | `substring(0, end)` is a prefix of the text, of length `end` when that is within the text and the whole text otherwise |
| JsString.After | src/utils.js:30 | `substring(start)` is a suffix of the text, of length `|s| - start` when `start` is within the text and empty otherwise |
| JsString.ReplaceFirst | src/utils.js:35 | `replace` leaves the length or shortens the text by exactly the pattern's length, and shortens it only when the pattern occurs |
| JsString.IndexOfFrom | src/utils.js:35 | the result is -1 or an occurrence at or after `from`, and there is no occurrence before it |
| JsString.ReplaceFirstCutsLeftmost | src/utils.js:35 | `replace` with a string pattern cuts out exactly the leftmost occurrence, and changes nothing when there is none |
| JsString.ReplaceWhole | src/utils.js:35 | cutting a text out of itself and trimming leaves nothing |
| JsString.DecimalString | src/reminderManager.js:17 | `id.toString()` is a non-empty digit string with no leading zero |
| JsString.DecimalRoundTrip | src/reminderManager.js:17 | reading back the decimal id gives the counter value it came from |
| JsString.DecimalStringInjective | src/reminderManager.js:14-17 | distinct counter values give distinct id strings |
| Extractor.CleanText | src/utils.js:10-13 | the text handed to the date parser is trimmed |
| Extractor.CleanTextStripsTrigger | src/utils.js:10-13 | the removed prefixes in order: "remind me " with an optional greedy "to " or "about ", then a bare "remind me", in any letter case, then trim; covers the texts where only one pass strips and those where both do |
| Extractor.CleanTextWithoutTrigger | src/utils.js:10-13 | text that does not open with "remind me" is only trimmed |
| Extractor.StripTriggerAndConnector | src/utils.js:11 | the first pass changes the text exactly when it opens with "remind me " (any case), and then removes 10, 13 or 16 characters |
| Extractor.StripBareTrigger | src/utils.js:12 | the second pass changes the text exactly when it opens with "remind me" (any case), and then removes 9 characters |
| Extractor.StripsPrefix | src/utils.js:11-12 | the two passes together remove a prefix of the text and nothing else |
| Extractor.CleanTextSlice | src/utils.js:10-13 | the text handed to the date parser is a slice of the user's text |
| Extractor.CleanTextPlain | src/utils.js:10-13 | "remind me " followed by trimmed text that opens with none of "to ", "about ", "remind me" (any case) leaves exactly that text |
| Extractor.MessageFrom | src/utils.js:26-37 | the derived message is trimmed |
| Extractor.ParseReminderCommand | src/utils.js:8-47 | no candidates gives null; a non-null result has a non-empty trimmed message and the first candidate's instant |
| Extractor.MatchIsWhole | src/utils.js:26-36 | in trimmed text, a consistent match with only white space around it is the whole text |
| Extractor.FallbackYieldsNothing | src/utils.js:34-36 | when the text before and after the match both trim to empty, the first-occurrence removal gives the empty message |
| Extractor.MessageCharacterised | src/utils.js:26-36 | the message is the trimmed text before the match if that is non-empty, else the trimmed text after it |
| Extractor.ParseCharacterised | src/utils.js:8-47 | the whole result for a consistent first candidate: null without candidates; otherwise the prefix, else the suffix, else null |
| Extractor.MessageSlice | src/utils.js:26-36 | the message is a slice of the cleaned text lying wholly before or wholly after the match |
| Extractor.MessageOutsideMatch | src/utils.js:25-37 | a returned message is a slice of the cleaned text that does not overlap the matched date text |
| Extractor.FirstCandidateDecides | src/utils.js:22-23 | two parsers that agree on the first candidate give the same result, whatever later candidates they report |
| Extractor.MessageBeforeTail | src/utils.js:26 | a date found at the tail, one space after a trimmed head, leaves that head as the message |
| Extractor.MessageThenDate | src/utils.js:8-47 | "remind me <message> <date>", where `<message> <date>` opens with none of "to ", "about ", "remind me", gives `<message>` and the date's instant |
| Extractor.DateOnly | src/utils.js:39-41 | "remind me to <date>", with the whole rest matched as the date, gives null |
| Extractor.GroceryExample | src/utils.js:8-47 | "remind me grocery tomorrow at 5pm" gives the message "grocery" at the parser's instant |
| Extractor.CallMomExample | src/utils.js:8-47 | "remind me call mom in 2 hours" gives the message "call mom" at the parser's instant |
| Extractor.TakeMedicineExample | src/index.js:56 | "remind me take medicine at 8pm" gives the message "take medicine": "take" is not the connector "to " |
| Extractor.BareDateExample | src/utils.js:39-41 | "remind me to tomorrow" gives null, because a bare date has no message |
| Reminders.IsDue | src/reminderManager.js:61 | a sent reminder is never due, and a due reminder is one the same tick's cleanup keeps |
| Reminders.IsRetained | src/reminderManager.js:70 | cleanup keeps every unsent reminder, and a sent one exactly while less than a day has passed since its time |
| Reminders.Keep | src/reminderManager.js:38 | `filter` keeps at most the elements it is given; an element is in the result exactly when it is in the input and passes the rule |
| Reminders.KeepIsSubsequence | src/reminderManager.js:68-71 | a filtered list is an order-preserving subsequence of the list |
| Reminders.KeepConcat | src/reminderManager.js:60-63 | filtering distributes over concatenation |
| Reminders.KeepSnoc | src/reminderManager.js:60-63 | filtering a list with one more element adds that element exactly when it passes |
| Reminders.SubsequenceMembers | src/reminderManager.js:68-71 | every element of a subsequence is an element of the list |
| Reminders.SubsequenceReflexive | src/reminderManager.js:50 | every list is a subsequence of itself |
| Reminders.RemoveAt | src/reminderManager.js:50 | `splice(k, 1)` drops element `k`; the elements before it stay in place and those after it move down by one |
| Reminders.RemoveAtIsSubsequence | src/reminderManager.js:50 | the spliced list is an order-preserving subsequence of the list |
| Reminders.RemoveAtMultiset | src/reminderManager.js:50 | splicing removes exactly one element, the one at `k` |
| Reminders.SubsequenceIncreasing | src/reminderManager.js:50 | a subsequence of a list with increasing ids has increasing ids |
| Reminders.SubsequenceWellFormed | src/reminderManager.js:50 | removing reminders from a well-formed list keeps it well formed |
| Reminders.NewReminder | src/reminderManager.js:16-23 | the new reminder's id is the decimal form of the counter, it is unsent, and it carries the chat, message, time and creation instant it was given |
| Reminders.IdIsFresh | src/reminderManager.js:7-17 | the id the counter gives out next belongs to no stored reminder in any chat |
| Reminders.AddKeepsWellFormed | src/reminderManager.js:13-29 | appending the new reminder and moving the counter on keeps the store well formed |
| Reminders.FindCancellable | src/reminderManager.js:46 | `findIndex` returns the first unsent reminder with exactly that id, or -1 when there is none |
| Reminders.CancelTwice | src/reminderManager.js:41-53 | after a successful cancel, cancelling the same id again finds nothing |
| Reminders.SetSent | src/reminderManager.js:86 | marking sent keeps every other field of every reminder, sets the flag of exactly the reminders with the matching id, and clears no flag |
| Reminders.SetSentWellFormed | src/reminderManager.js:86 | marking sent keeps the list well formed |
| Reminders.SentNotRedispatched | src/reminderManager.js:61-86 | once marked sent, no reminder with that id is due again |
| Reminders.Swept | src/reminderManager.js:67-71 | cleanup keeps every chat, keeps a reminder exactly when it is unsent or its time is within the last 24 hours, and keeps the list's order |
| Reminders.SweptWellFormed | src/reminderManager.js:67-71 | cleanup keeps the store well formed |
| Reminders.DueAcross | src/reminderManager.js:59-64 | everything a visit of the chats dispatches is due |
| Reminders.DueAcrossSound | src/reminderManager.js:59-64 | every reminder a visit of the chats dispatches is due and belongs to one of those chats |
| Reminders.DueAcrossComplete | src/reminderManager.js:59-64 | every due reminder in the list of a visited chat is dispatched |
| Reminders.DueAcrossMember | src/reminderManager.js:59-64 | a reminder is dispatched exactly when it is due and in the list of a visited chat |
| Reminders.DueAcrossSnoc | src/reminderManager.js:59-64 | visiting one more chat dispatches that chat's due reminders after the earlier ones |
| Reminders.DueAcrossDistinct | src/reminderManager.js:59-64 | in a well-formed store, visiting each chat once dispatches no reminder twice |
| Reminders.IncreasingDistinct | src/reminderManager.js:14-17 | a list whose ids increase holds no reminder twice |
| Reminders.DistinctConcat | src/reminderManager.js:59-64 | two duplicate-free sequences with no common element concatenate to a duplicate-free sequence |
| Reminders.DispatchIsExactlyDue | src/reminderManager.js:59-64 | a tick dispatches exactly the stored reminders with `!sent && dateTime <= now` |
| Reminders.DispatchedSurviveSweep | src/reminderManager.js:59-71 | every reminder a tick dispatches survives that tick's cleanup |
| Reminders.FailedDispatchRetried | src/reminderManager.js:89-91 | a reminder whose send failed stays stored and is dispatched again by every later tick |
| Reminders.PartlySweptStep | src/reminderManager.js:68-71 | cleaning one more chat's list updates only that chat |
| Reminders.PartlySweptUntouched | src/reminderManager.js:59-60 | a chat not yet visited still has its original list |
| Reminders.PartlySweptAll | src/reminderManager.js:59-72 | after every chat is visited, the store is the cleaned store |
| Reminders.TickStep | src/reminderManager.js:59-72 | visiting the next chat extends both the cleaned lists and the dispatched reminders by that chat's share |
| Reminders.DueIn | src/reminderManager.js:60-64 | the inner loop hands over exactly that list's due reminders, in list order |
| Reminders.Tick | src/reminderManager.js:56-73 | the nested loops dispatch `DueAcross` of the old store and leave the `Swept` store |
| Reminders.ReminderManager.constructor | src/reminderManager.js:4-7 | the store starts empty with the counter at 1 |
| Reminders.ReminderManager.AddReminder | src/reminderManager.js:13-34 | the new reminder has the old counter as its id and is unsent; the id is fresh; the counter goes up by one; the reminder goes at the end of its chat's list (created if absent); other chats are unchanged |
| Reminders.ReminderManager.GetUserReminders | src/reminderManager.js:36-39 | exactly the chat's unsent reminders, in insertion order; an unknown chat has none; reads the store without changing it |
| Reminders.ReminderManager.CancelReminder | src/reminderManager.js:41-54 | false with nothing changed when the chat has no list or no unsent reminder has the id; otherwise true, with exactly the first unsent match spliced out |
| Reminders.ReminderManager.CheckReminders | src/reminderManager.js:56-73 | returns exactly the due reminders in visiting order, each once; leaves the cleaned store; the counter and the chat order are unchanged |
| Reminders.ReminderManager.MarkSent | src/reminderManager.js:84-88 | the success callback sets `sent` on the matching reminder of its chat and changes nothing else |
| Intake.Decide | src/index.js:106-131 | commands are ignored; an unparsable text is not understood; a time before `now` is refused; otherwise the parsed reminder is accepted, with a time at or after `now` and a non-empty message |
| Intake.AcceptedMessage | src/index.js:114-131 | an accepted reminder has the first candidate's instant, and its message is the trimmed text before the match, or else after it |
| Intake.Submit | src/index.js:106-131 | the store changes only on acceptance, and then exactly as `addReminder` changes it |

## Left out

- The timers are left out: `setInterval` (src/reminderManager.js:10) and `destroy` (src/reminderManager.js:94-98). The model calls `CheckReminders` directly.
- The clock reads (`new Date()`) become the parameter `now`, in milliseconds. On the intake path, the extractor, the past-time guard and `addReminder` each read the clock; here the three reads are one instant.
- The chrono-node date grammar is outside this model. It is the parameter `DateParser`, and its options (`forwardDate`) are fixed inside it.
- The text of the Telegram messages is not modelled: the notification built in `sendReminder`, the replies in src/index.js, `toLocaleString` and `formatRemindersList`. Only the decisions that select them are modelled.
- The command routing of src/index.js (`/start`, `/help`, `/list`, `/cancel`) and process shutdown are not modelled.
- A message without text (where `msg.text` is undefined) is not modelled, because the model's input is always a string. The handler's `try`/`catch` is not modelled either, because no modelled operation throws.
- Promise concurrency is not modelled. A send still pending when the next tick runs would be dispatched a second time. The model takes completions as separate `MarkSent` calls that the caller places between ticks.
- Object aliasing is not modelled. The callback's reference to the dispatched object is modelled by the reminder's chat and id.
- `console.log` and `console.error` are left out.
- Strings are sequences of characters, not of UTF-16 code units. No character outside the Basic Multilingual Plane is white space or an ASCII letter, so `trim` and the trigger match treat such a character the same either way. The offsets the date parser reports are taken to be in the model's units.
- Reminders.ReminderManager.AddReminder: the counter is a JavaScript number. After 2^53 ids, `++` would stop growing and ids would repeat, and from 10^21 on `toString` switches to exponent form. The model's unbounded counter always gives a fresh decimal id, so its freshness `ensures` holds only below those bounds; a bot cannot create that many reminders.
- Reminders.IdIsFresh and JsString.DecimalString: these assume the same bound on the counter, as the line above explains.
