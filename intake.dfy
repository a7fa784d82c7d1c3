/** The text-message handler of src/index.js that turns a chat message into a
    stored reminder: commands are ignored, text the extractor cannot read is
    refused, a time already past is refused, and anything else is added to the
    store. The three reads of the clock (inside the extractor, in the past-time
    guard and in `addReminder`) are one instant `now`. The replies the handler
    sends are not modelled; the decision that selects them is. */
module Intake {
  import opened JsString
  import opened Extractor
  import opened Reminders

  /** Which way the handler goes for one message. */
  datatype Decision =
    | Ignored
    | NotUnderstood
    | InPast
    | Accept(message: string, dateTime: int)

  /** The handler's choice for `text` received at `now`. */
  function Decide(text: string, now: int, parse: DateParser): (d: Decision)
    ensures d == Ignored <==> |text| > 0 && text[0] == '/'
    ensures d == NotUnderstood <==>
              !(|text| > 0 && text[0] == '/') && ParseReminderCommand(text, now, parse).None?
    ensures d == InPast <==>
              !(|text| > 0 && text[0] == '/') && ParseReminderCommand(text, now, parse).Some?
              && ParseReminderCommand(text, now, parse).value.dateTime < now
    ensures d.Accept? ==> Some(Parsed(d.message, d.dateTime)) == ParseReminderCommand(text, now, parse)
    ensures d.Accept? ==> now <= d.dateTime && d.message != [] && IsTrimmed(d.message)
  {
    if |text| > 0 && text[0] == '/' then Ignored
    else
      match ParseReminderCommand(text, now, parse)
      case None => NotUnderstood
      case Some(p) => if p.dateTime < now then InPast else Accept(p.message, p.dateTime)
  }

  /** An accepted message, with a consistent first candidate, becomes a
      reminder at that candidate's instant whose message is the trimmed text
      before the match, or else the trimmed text after it. */
  lemma AcceptedMessage(text: string, now: int, parse: DateParser)
    requires parse(CleanText(text), now) != [] ==> Consistent(CleanText(text), parse(CleanText(text), now)[0])
    requires Decide(text, now, parse).Accept?
    ensures var c := parse(CleanText(text), now)[0];
            var before := Trim(Before(CleanText(text), c.index));
            var after := Trim(After(CleanText(text), c.index + |c.text|));
            Decide(text, now, parse) == Accept(if before != [] then before else after, c.start)
  {
    ParseCharacterised(text, now, parse);
  }

  /** The handler: on acceptance the reminder is added to the store and
      returned; on every other way nothing in the store changes. */
  method Submit(store: ReminderManager, chatId: ChatId, text: string, now: int, parse: DateParser)
    returns (d: Decision, r: Option<Reminder>)
    requires store.Valid()
    modifies store
    ensures store.Valid()
    ensures d == Decide(text, now, parse)
    ensures !d.Accept? ==> r == None && unchanged(store)
    ensures d.Accept? ==>
              && r == Some(NewReminder(old(store.reminderIdCounter), chatId, d.message, d.dateTime, now))
              && store.reminderIdCounter == old(store.reminderIdCounter) + 1
              && store.reminders == old(store.reminders)[chatId := ListOf(old(store.reminders), chatId) + [r.value]]
              && store.chats == if chatId in old(store.reminders) then old(store.chats) else old(store.chats) + [chatId]
  {
    d := Decide(text, now, parse);
    if !d.Accept? {
      return d, None;
    }
    var added := store.AddReminder(chatId, d.message, d.dateTime, now);
    r := Some(added);
  }
}
