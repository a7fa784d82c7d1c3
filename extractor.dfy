/** The message/time extractor `parseReminderCommand` of src/utils.js: strip a
    leading "remind me" phrase, hand the rest to the date parser, take its first
    candidate as the reminder's instant, and keep the text around that candidate
    as the message. The date parser (chrono-node) is not modelled: it is a
    parameter, a function from the cleaned text and the reference instant to
    the candidates it found. Instants are milliseconds since the epoch. */
module Extractor {
  import opened JsString

  datatype Option<T> = None | Some(value: T)

  /** One date/time expression the parser found: its offset in the text it was
      given, the matched text, and the instant it resolved to. */
  datatype Candidate = Candidate(index: nat, text: string, start: int)

  /** The date parser with its options fixed (forward dates): text and reference
      instant to candidates, leftmost first. */
  type DateParser = (string, int) -> seq<Candidate>

  datatype Parsed = Parsed(message: string, dateTime: int)

  /** What a parser is expected to report: the candidate's text is the slice of
      the parsed text at the candidate's offset. */
  predicate Consistent(clean: string, c: Candidate) {
    OccursAt(clean, c.text, c.index)
  }

  /** `text.replace(/^remind me (to |about )?/i, '')`: the optional group is
      greedy, so a connector right after "remind me " goes too. */
  function StripTriggerAndConnector(text: string): (r: string)
    ensures |r| <= |text|
    ensures !StartsWithIgnoringCase(text, "remind me ") <==> r == text
    ensures StartsWithIgnoringCase(text, "remind me ") ==> |text| - |r| in {10, 13, 16}
  {
    if StartsWithIgnoringCase(text, "remind me ") then
      var rest := text[10..];
      if StartsWithIgnoringCase(rest, "to ") then rest[3..]
      else if StartsWithIgnoringCase(rest, "about ") then rest[6..]
      else rest
    else text
  }

  /** `.replace(/^remind me/i, '')`, applied to what the first pass left. */
  function StripBareTrigger(text: string): (r: string)
    ensures |r| <= |text|
    ensures !StartsWithIgnoringCase(text, "remind me") <==> r == text
    ensures StartsWithIgnoringCase(text, "remind me") ==> |r| == |text| - 9
  {
    if StartsWithIgnoringCase(text, "remind me") then text[9..] else text
  }

  /** The two passes remove a prefix and nothing else: what they leave is
      the text from offset `k` on. */
  lemma StripsPrefix(text: string) returns (k: nat)
    ensures k <= |text| && StripBareTrigger(StripTriggerAndConnector(text)) == text[k..]
  {
    var first := StripTriggerAndConnector(text);
    var k1 := |text| - |first|;
    assert first == text[k1..] by {
      if StartsWithIgnoringCase(text, "remind me ") {
        var rest := text[10..];
        if StartsWithIgnoringCase(rest, "to ") {
          assert rest[3..] == text[13..];
        } else if StartsWithIgnoringCase(rest, "about ") {
          assert rest[6..] == text[16..];
        }
      }
    }
    var k2 := |first| - |StripBareTrigger(first)|;
    k := k1 + k2;
    assert text[k1..][k2..] == text[k..];
  }

  /** The text handed to the date parser: both passes, then `trim`. */
  function CleanText(text: string): (r: string)
    ensures IsTrimmed(r)
  {
    Trim(StripBareTrigger(StripTriggerAndConnector(text)))
  }

  /** The date parser sees a slice of the user's text, at offset `a`. */
  lemma CleanTextSlice(text: string) returns (a: nat)
    ensures OccursAt(text, CleanText(text), a)
  {
    var k := StripsPrefix(text);
    a := TrimSuffixSlice(text, k);
  }

  /** The message of src/utils.js:26-37, derived from the cleaned text and the
      first candidate: the trimmed text before the match if any, else the
      trimmed text after it, else the text with the first occurrence of the
      matched text cut out, trimmed. */
  function MessageFrom(clean: string, c: Candidate): (m: string)
    ensures IsTrimmed(m)
  {
    var before := Trim(Before(clean, c.index));
    if before != [] then before
    else
      var after := Trim(After(clean, c.index + |c.text|));
      if after != [] then after
      else Trim(ReplaceFirst(clean, c.text))
  }

  /** `parseReminderCommand(text)` with `new Date()` as `now` and `chrono.parse`
      as `parse`: null is `None`. */
  function ParseReminderCommand(text: string, now: int, parse: DateParser): (r: Option<Parsed>)
    ensures parse(CleanText(text), now) == [] ==> r == None
    ensures r.Some? ==> r.value.message != [] && IsTrimmed(r.value.message)
    ensures r.Some? ==> r.value.dateTime == parse(CleanText(text), now)[0].start
  {
    var clean := CleanText(text);
    var candidates := parse(clean, now);
    if |candidates| == 0 then None
    else
      var first := candidates[0];
      var message := MessageFrom(clean, first);
      if message == [] then None else Some(Parsed(message, first.start))
  }

  /** Text that does not open with "remind me" (in any case) is only trimmed. */
  lemma CleanTextWithoutTrigger(text: string)
    requires !StartsWithIgnoringCase(text, "remind me")
    ensures CleanText(text) == Trim(text)
  {
  }

  /** The prefixes the two passes remove, in order: "remind me " with an
      optional "to " or "about ", then a bare "remind me"; letters in any case. */
  lemma CleanTextStripsTrigger(text: string)
    ensures StartsWithIgnoringCase(text, "remind me to ") && !StartsWithIgnoringCase(text[13..], "remind me")
            ==> CleanText(text) == Trim(text[13..])
    ensures StartsWithIgnoringCase(text, "remind me about ") && !StartsWithIgnoringCase(text[16..], "remind me")
            ==> CleanText(text) == Trim(text[16..])
    ensures StartsWithIgnoringCase(text, "remind me ")
            && !StartsWithIgnoringCase(text[10..], "to ") && !StartsWithIgnoringCase(text[10..], "about ")
            && !StartsWithIgnoringCase(text[10..], "remind me")
            ==> CleanText(text) == Trim(text[10..])
    ensures StartsWithIgnoringCase(text, "remind me") && !StartsWithIgnoringCase(text, "remind me ")
            ==> CleanText(text) == Trim(text[9..])
    ensures StartsWithIgnoringCase(text, "remind me to ") && StartsWithIgnoringCase(text[13..], "remind me")
            ==> CleanText(text) == Trim(text[22..])
    ensures StartsWithIgnoringCase(text, "remind me about ") && StartsWithIgnoringCase(text[16..], "remind me")
            ==> CleanText(text) == Trim(text[25..])
    ensures StartsWithIgnoringCase(text, "remind me ")
            && !StartsWithIgnoringCase(text[10..], "to ") && !StartsWithIgnoringCase(text[10..], "about ")
            && StartsWithIgnoringCase(text[10..], "remind me")
            ==> CleanText(text) == Trim(text[19..])
  {
    if StartsWithIgnoringCase(text, "remind me to ") {
      assert StartsWithIgnoringCase(text, "remind me ") by {
        assert forall i :: 0 <= i < 10 ==> "remind me to "[i] == "remind me "[i];
      }
      assert StartsWithIgnoringCase(text[10..], "to ") by {
        assert forall i :: 0 <= i < 3 ==> "remind me to "[10 + i] == "to "[i];
      }
      assert text[10..][3..] == text[13..];
      if StartsWithIgnoringCase(text[13..], "remind me") {
        assert text[13..][9..] == text[22..];
      }
    }
    if StartsWithIgnoringCase(text, "remind me about ") {
      assert StartsWithIgnoringCase(text, "remind me ") by {
        assert forall i :: 0 <= i < 10 ==> "remind me about "[i] == "remind me "[i];
      }
      assert !StartsWithIgnoringCase(text[10..], "to ") by {
        assert FoldAscii(text[10]) == 'a';
      }
      assert StartsWithIgnoringCase(text[10..], "about ") by {
        assert forall i :: 0 <= i < 6 ==> "remind me about "[10 + i] == "about "[i];
      }
      assert text[10..][6..] == text[16..];
      if StartsWithIgnoringCase(text[16..], "remind me") {
        assert text[16..][9..] == text[25..];
      }
    }
    if StartsWithIgnoringCase(text, "remind me ") && StartsWithIgnoringCase(text[10..], "remind me") {
      assert text[10..][9..] == text[19..];
    }
  }

  /** In a trimmed text, a consistent match with only white space around it is
      the whole text. */
  lemma MatchIsWhole(clean: string, c: Candidate)
    requires IsTrimmed(clean) && Consistent(clean, c)
    requires AllSpace(clean[..c.index]) && AllSpace(clean[c.index + |c.text|..])
    ensures c.index == 0 && c.text == clean
  {
    var e := c.index + |c.text|;
    if clean != [] {
      if c.index > 0 {
        assert false;
      }
      if e < |clean| {
        assert false;
      }
    }
  }

  /** The third way of deriving the message never yields one from a consistent
      candidate: when the trimmed text before and after the match are both
      empty, the match is the whole cleaned text and cutting it out leaves
      nothing. */
  lemma FallbackYieldsNothing(clean: string, c: Candidate)
    requires IsTrimmed(clean) && Consistent(clean, c)
    requires Trim(Before(clean, c.index)) == [] && Trim(After(clean, c.index + |c.text|)) == []
    ensures MessageFrom(clean, c) == []
  {
    assert Before(clean, c.index) == clean[..c.index];
    assert After(clean, c.index + |c.text|) == clean[c.index + |c.text|..];
    MatchIsWhole(clean, c);
    ReplaceWhole(clean);
  }

  /** With a consistent candidate, the message is the trimmed text before the
      match if that is not empty, and the trimmed text after it otherwise. */
  lemma MessageCharacterised(clean: string, c: Candidate)
    requires IsTrimmed(clean) && Consistent(clean, c)
    ensures MessageFrom(clean, c) == if Trim(Before(clean, c.index)) != [] then Trim(Before(clean, c.index))
                                     else Trim(After(clean, c.index + |c.text|))
  {
    if Trim(Before(clean, c.index)) == [] && Trim(After(clean, c.index + |c.text|)) == [] {
      FallbackYieldsNothing(clean, c);
    }
  }

  /** With a consistent first candidate, the result is exactly this: no
      candidate, no reminder; otherwise the trimmed text before the match if it
      is not empty, else the trimmed text after it if that is not empty, and
      no reminder when both are empty (a bare date has no message). */
  lemma ParseCharacterised(text: string, now: int, parse: DateParser)
    requires parse(CleanText(text), now) != [] ==> Consistent(CleanText(text), parse(CleanText(text), now)[0])
    ensures var clean := CleanText(text);
            var candidates := parse(clean, now);
            ParseReminderCommand(text, now, parse) ==
              if candidates == [] then None
              else
                var c := candidates[0];
                var before := Trim(Before(clean, c.index));
                var after := Trim(After(clean, c.index + |c.text|));
                if before != [] then Some(Parsed(before, c.start))
                else if after != [] then Some(Parsed(after, c.start))
                else None
  {
    var clean := CleanText(text);
    var candidates := parse(clean, now);
    if candidates != [] {
      var c := candidates[0];
      MessageCharacterised(clean, c);
      var m := MessageFrom(clean, c);
      assert ParseReminderCommand(text, now, parse) == if m == [] then None else Some(Parsed(m, c.start));
    }
  }

  /** A message derived from a consistent candidate is the slice of the
      cleaned text at offset `a`, lying wholly before or wholly after the match. */
  lemma MessageSlice(clean: string, c: Candidate) returns (a: nat)
    requires IsTrimmed(clean) && Consistent(clean, c)
    ensures var m := MessageFrom(clean, c);
            OccursAt(clean, m, a) && (a + |m| <= c.index || c.index + |c.text| <= a)
  {
    MessageCharacterised(clean, c);
    if Trim(Before(clean, c.index)) != [] {
      a := TrimBeforeSlice(clean, c.index);
    } else {
      a := TrimAfterSlice(clean, c.index + |c.text|);
    }
  }

  /** With a consistent first candidate, the message of a reminder is a slice of
      the cleaned text, at offset `a`, that does not overlap the matched date
      text. */
  lemma MessageOutsideMatch(text: string, now: int, parse: DateParser) returns (a: nat)
    requires parse(CleanText(text), now) != [] ==> Consistent(CleanText(text), parse(CleanText(text), now)[0])
    ensures var clean := CleanText(text);
            var r := ParseReminderCommand(text, now, parse);
            r.Some? ==>
              var c := parse(clean, now)[0];
              var m := r.value.message;
              OccursAt(clean, m, a) && (a + |m| <= c.index || c.index + |c.text| <= a)
  {
    a := 0;
    var clean := CleanText(text);
    if parse(clean, now) != [] {
      a := MessageSlice(clean, parse(clean, now)[0]);
    }
  }

  /** Only the first candidate matters: parsers that agree on it give the same
      result, whatever else they report. */
  lemma FirstCandidateDecides(text: string, now: int, p: DateParser, q: DateParser)
    requires p(CleanText(text), now) != [] && q(CleanText(text), now) != []
    requires p(CleanText(text), now)[0] == q(CleanText(text), now)[0]
    ensures ParseReminderCommand(text, now, p) == ParseReminderCommand(text, now, q)
  {
  }

  /** "remind me " followed by a trimmed text that opens with none of "to ",
      "about " or "remind me" leaves that text to the parser. */
  lemma CleanTextPlain(rest: string)
    requires IsTrimmed(rest)
    requires !StartsWithIgnoringCase(rest, "to ") && !StartsWithIgnoringCase(rest, "about ")
    requires !StartsWithIgnoringCase(rest, "remind me")
    ensures CleanText("remind me " + rest) == rest
  {
    var text := "remind me " + rest;
    assert StartsWithIgnoringCase(text, "remind me ") by {
      assert forall i :: 0 <= i < 10 ==> text[i] == "remind me "[i];
    }
    assert text[10..] == rest;
    assert StripTriggerAndConnector(text) == rest;
    assert StripBareTrigger(rest) == rest;
    TrimFixed(rest);
  }

  /** A first candidate that is the tail of the cleaned text, one space after a
      trimmed head, leaves that head as the message. */
  lemma MessageBeforeTail(head: string, c: Candidate)
    requires head != [] && IsTrimmed(head) && c.index == |head| + 1
    ensures MessageFrom(head + " " + c.text, c) == head
  {
    var clean := head + " " + c.text;
    assert Before(clean, c.index) == head + " ";
    TrimOneSpace(head);
  }

  /** "remind me <message> <date>", with the parser finding `date` after the
      message and one space, gives `message`, provided the text after
      "remind me " opens with neither a connector nor a second trigger. */
  lemma MessageThenDate(message: string, date: string, t: int, now: int, parse: DateParser)
    requires message != [] && IsTrimmed(message) && date != [] && IsTrimmed(date)
    requires var rest := message + " " + date;
             !StartsWithIgnoringCase(rest, "to ") && !StartsWithIgnoringCase(rest, "about ")
             && !StartsWithIgnoringCase(rest, "remind me")
    requires parse(message + " " + date, now) != []
    requires parse(message + " " + date, now)[0] == Candidate(|message| + 1, date, t)
    ensures ParseReminderCommand("remind me " + (message + " " + date), now, parse) == Some(Parsed(message, t))
  {
    var rest := message + " " + date;
    assert rest[0] == message[0] && rest[|rest| - 1] == date[|date| - 1];
    CleanTextPlain(rest);
    MessageBeforeTail(message, Candidate(|message| + 1, date, t));
  }

  /** A text whose first two letters (in any case) are neither "to" nor the
      start of "about" or "remind me" opens with no connector and no trigger. */
  lemma PlainOpening(rest: string)
    requires |rest| >= 2 && FoldAscii(rest[0]) != 'a' && FoldAscii(rest[0]) != 'r'
    requires FoldAscii(rest[0]) != 't' || FoldAscii(rest[1]) != 'o'
    ensures !StartsWithIgnoringCase(rest, "to ") && !StartsWithIgnoringCase(rest, "about ")
    ensures !StartsWithIgnoringCase(rest, "remind me")
  {
    assert "to "[0] == 't' && "to "[1] == 'o' && "about "[0] == 'a' && "remind me"[0] == 'r';
  }

  /** "remind me grocery tomorrow at 5pm": with the parser reporting
      "tomorrow at 5pm" at offset 8, the message is "grocery". */
  lemma GroceryExample(now: int, t: int, parse: DateParser)
    requires parse("grocery" + " " + "tomorrow at 5pm", now) == [Candidate(8, "tomorrow at 5pm", t)]
    ensures ParseReminderCommand("remind me " + ("grocery" + " " + "tomorrow at 5pm"), now, parse) == Some(Parsed("grocery", t))
  {
    PlainOpening("grocery" + " " + "tomorrow at 5pm");
    MessageThenDate("grocery", "tomorrow at 5pm", t, now, parse);
  }

  /** "remind me call mom in 2 hours": with the parser reporting "in 2 hours"
      at offset 9, the message is "call mom". */
  lemma CallMomExample(now: int, t: int, parse: DateParser)
    requires parse("call mom" + " " + "in 2 hours", now) == [Candidate(9, "in 2 hours", t)]
    ensures ParseReminderCommand("remind me " + ("call mom" + " " + "in 2 hours"), now, parse) == Some(Parsed("call mom", t))
  {
    PlainOpening("call mom" + " " + "in 2 hours");
    MessageThenDate("call mom", "in 2 hours", t, now, parse);
  }

  /** "remind me take medicine at 8pm": "take" does not open the connector
      "to ", so only "remind me " goes; with the parser reporting "at 8pm" at
      offset 14, the message is "take medicine". */
  lemma TakeMedicineExample(now: int, t: int, parse: DateParser)
    requires parse("take medicine" + " " + "at 8pm", now) == [Candidate(14, "at 8pm", t)]
    ensures ParseReminderCommand("remind me " + ("take medicine" + " " + "at 8pm"), now, parse) == Some(Parsed("take medicine", t))
  {
    PlainOpening("take medicine" + " " + "at 8pm");
    MessageThenDate("take medicine", "at 8pm", t, now, parse);
  }

  /** "remind me to <date>", with the parser finding the whole of `date`, has
      no message and gives no reminder. */
  lemma DateOnly(date: string, t: int, now: int, parse: DateParser)
    requires IsTrimmed(date) && !StartsWithIgnoringCase(date, "remind me")
    requires parse(date, now) != [] && parse(date, now)[0] == Candidate(0, date, t)
    ensures ParseReminderCommand("remind me to " + date, now, parse) == None
  {
    var text := "remind me to " + date;
    assert StartsWithIgnoringCase(text, "remind me to ") by {
      assert forall i :: 0 <= i < 13 ==> text[i] == "remind me to "[i];
    }
    assert text[13..] == date;
    CleanTextStripsTrigger(text);
    TrimFixed(date);
    FallbackYieldsNothing(date, Candidate(0, date, t));
  }

  /** "remind me to tomorrow": the date is all there is, so nothing is parsed. */
  lemma BareDateExample(now: int, t: int, parse: DateParser)
    requires parse("tomorrow", now) == [Candidate(0, "tomorrow", t)]
    ensures ParseReminderCommand("remind me to tomorrow", now, parse) == None
  {
    var date := "tomorrow";
    assert !StartsWithIgnoringCase(date, "remind me") by {
      assert FoldAscii(date[0]) == 't';
    }
    assert "remind me to " + date == "remind me to tomorrow";
    DateOnly(date, t, now, parse);
  }
}
