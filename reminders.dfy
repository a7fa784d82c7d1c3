/** The reminder store and scheduler tick of src/reminderManager.js: a map from
    chat to that chat's reminders in insertion order, one id counter for all
    chats, a tick that picks the due reminders for dispatch and then drops sent
    reminders more than a day old, and the success callback of a dispatch,
    which marks a reminder sent. Instants are milliseconds since the epoch;
    the clock is a parameter. */
module Reminders {
  import opened JsString

  /** A Telegram chat id. */
  type ChatId = int

  datatype Reminder = Reminder(id: string, chatId: ChatId, message: string,
                               dateTime: int, createdAt: int, sent: bool)

  /** How long a sent reminder is kept after its time: 24 hours. */
  const DAY_MS: int := 24 * 60 * 60 * 1000

  /** A reminder the tick at `now` dispatches: never a sent one, and never one
      the same tick's cleanup would drop. */
  predicate IsDue(r: Reminder, now: int): (b: bool)
    ensures r.sent ==> !b
    ensures b ==> IsRetained(r, now)
  {
    !r.sent && r.dateTime <= now
  }

  /** A reminder the cleanup at `now` keeps: every unsent one, and a sent one
      until a full day has passed since its time. */
  predicate IsRetained(r: Reminder, now: int): (b: bool)
    ensures !r.sent ==> b
    ensures r.sent ==> (b <==> now < r.dateTime + DAY_MS)
  {
    !r.sent || r.dateTime > now - DAY_MS
  }

  /** The three filters the store applies to a chat's list. */
  datatype Rule = Unsent | DueAt(now: int) | RetainedAt(now: int)

  predicate Holds(rule: Rule, r: Reminder) {
    match rule
    case Unsent => !r.sent
    case DueAt(now) => IsDue(r, now)
    case RetainedAt(now) => IsRetained(r, now)
  }

  /** `Array.prototype.filter` with one of those rules: the elements that pass,
      in their order. */
  function Keep(s: seq<Reminder>, rule: Rule): (r: seq<Reminder>)
    ensures |r| <= |s|
    ensures forall x :: x in r <==> x in s && Holds(rule, x)
  {
    if s == [] then [] else (if Holds(rule, s[0]) then [s[0]] else []) + Keep(s[1..], rule)
  }

  /** `a` is `b` with some elements left out, the rest in the same order. */
  ghost predicate IsSubsequence(a: seq<Reminder>, b: seq<Reminder>)
    decreases |b|
  {
    a == [] || (b != [] && ((a[0] == b[0] && IsSubsequence(a[1..], b[1..])) || IsSubsequence(a, b[1..])))
  }

  lemma {:induction false} KeepIsSubsequence(s: seq<Reminder>, rule: Rule)
    ensures IsSubsequence(Keep(s, rule), s)
  {
    if s != [] {
      KeepIsSubsequence(s[1..], rule);
      var r := Keep(s, rule);
      if Holds(rule, s[0]) {
        assert r[0] == s[0] && r[1..] == Keep(s[1..], rule);
      } else {
        assert r == Keep(s[1..], rule);
      }
      assert r == [] || (r[0] == s[0] && IsSubsequence(r[1..], s[1..])) || IsSubsequence(r, s[1..]);
    }
  }

  /** Filtering distributes over concatenation. */
  lemma {:induction false} KeepConcat(a: seq<Reminder>, b: seq<Reminder>, rule: Rule)
    ensures Keep(a + b, rule) == Keep(a, rule) + Keep(b, rule)
  {
    if a == [] {
      assert a + b == b;
    } else {
      var ab := a + b;
      assert ab[0] == a[0] && ab[1..] == a[1..] + b;
      KeepConcat(a[1..], b, rule);
      var h := if Holds(rule, a[0]) then [a[0]] else [];
      assert Keep(ab, rule) == h + (Keep(a[1..], rule) + Keep(b, rule));
      assert Keep(a, rule) == h + Keep(a[1..], rule);
    }
  }

  lemma KeepSnoc(s: seq<Reminder>, x: Reminder, rule: Rule)
    ensures Keep(s + [x], rule) == Keep(s, rule) + (if Holds(rule, x) then [x] else [])
  {
    KeepConcat(s, [x], rule);
    assert [x][1..] == [];
  }

  lemma {:induction false} SubsequenceMembers(a: seq<Reminder>, b: seq<Reminder>)
    requires IsSubsequence(a, b)
    ensures forall x :: x in a ==> x in b
    decreases |b|
  {
    if a != [] {
      if a[0] == b[0] && IsSubsequence(a[1..], b[1..]) {
        SubsequenceMembers(a[1..], b[1..]);
        forall x | x in a ensures x in b {
          if x != a[0] {
            assert x in a[1..];
          }
        }
      } else {
        SubsequenceMembers(a, b[1..]);
      }
    }
  }

  /** `s.splice(k, 1)`: the element at `k` is gone, the others close up in order. */
  function RemoveAt(s: seq<Reminder>, k: nat): (r: seq<Reminder>)
    requires k < |s|
    ensures |r| == |s| - 1
    ensures forall i :: 0 <= i < k ==> r[i] == s[i]
    ensures forall i :: k <= i < |r| ==> r[i] == s[i + 1]
  {
    s[..k] + s[k + 1..]
  }

  lemma {:induction false} RemoveAtIsSubsequence(s: seq<Reminder>, k: nat)
    requires k < |s|
    ensures IsSubsequence(RemoveAt(s, k), s)
  {
    if k == 0 {
      assert RemoveAt(s, k) == s[1..];
      SubsequenceReflexive(s[1..]);
    } else {
      RemoveAtIsSubsequence(s[1..], k - 1);
      assert RemoveAt(s, k)[1..] == RemoveAt(s[1..], k - 1);
    }
  }

  /** Splicing out position `k` removes exactly one element, `s[k]`. */
  lemma RemoveAtMultiset(s: seq<Reminder>, k: nat)
    requires k < |s|
    ensures multiset(s) == multiset(RemoveAt(s, k)) + multiset{s[k]}
  {
    assert s == s[..k] + [s[k]] + s[k + 1..];
  }

  /** Every list is a subsequence of itself. */
  lemma {:induction false} SubsequenceReflexive(s: seq<Reminder>)
    ensures IsSubsequence(s, s)
  {
    if s != [] {
      SubsequenceReflexive(s[1..]);
    }
  }

  function ListOf(m: map<ChatId, seq<Reminder>>, c: ChatId): seq<Reminder> {
    if c in m then m[c] else []
  }

  /** The number a reminder's id denotes (ids are decimal strings). */
  function IdValue(r: Reminder): nat {
    if IsDigits(r.id) then DecimalValue(r.id) else 0
  }

  /** Ids grow along a chat's list: insertion order is id order. */
  ghost predicate IdsIncreasing(l: seq<Reminder>) {
    forall i, j :: 0 <= i < j < |l| ==> IdValue(l[i]) < IdValue(l[j])
  }

  /** What holds of the list of chat `c` while the counter stands at `counter`:
      every reminder belongs to `c` and has a decimal id below the counter, and
      ids increase along the list. */
  ghost predicate ListWellFormed(c: ChatId, l: seq<Reminder>, counter: nat) {
    && (forall x :: x in l ==> x.chatId == c && IsDigits(x.id) && DecimalValue(x.id) < counter)
    && IdsIncreasing(l)
  }

  ghost predicate StoreWellFormed(m: map<ChatId, seq<Reminder>>, counter: nat) {
    forall c :: c in m ==> ListWellFormed(c, m[c], counter)
  }

  lemma {:induction false} SubsequenceIncreasing(a: seq<Reminder>, b: seq<Reminder>)
    requires IsSubsequence(a, b) && IdsIncreasing(b)
    ensures IdsIncreasing(a)
    decreases |b|
  {
    if a != [] {
      assert IdsIncreasing(b[1..]);
      if a[0] == b[0] && IsSubsequence(a[1..], b[1..]) {
        SubsequenceIncreasing(a[1..], b[1..]);
        SubsequenceMembers(a[1..], b[1..]);
        forall j | 0 < j < |a| ensures IdValue(a[0]) < IdValue(a[j]) {
          assert a[j] in a[1..];
          var i :| 0 <= i < |b[1..]| && b[1..][i] == a[j];
          assert b[i + 1] == a[j];
        }
        forall i, j | 0 <= i < j < |a| ensures IdValue(a[i]) < IdValue(a[j]) {
          if i > 0 {
            assert a[i] == a[1..][i - 1] && a[j] == a[1..][j - 1];
          }
        }
      } else {
        SubsequenceIncreasing(a, b[1..]);
      }
    }
  }

  /** Leaving reminders out of a chat's list keeps it well formed. */
  lemma SubsequenceWellFormed(c: ChatId, a: seq<Reminder>, b: seq<Reminder>, counter: nat)
    requires IsSubsequence(a, b) && ListWellFormed(c, b, counter)
    ensures ListWellFormed(c, a, counter)
  {
    SubsequenceMembers(a, b);
    SubsequenceIncreasing(a, b);
  }

  /** The reminder `addReminder` creates when the counter stands at `counter`. */
  function NewReminder(counter: nat, chatId: ChatId, message: string, dateTime: int, now: int): (r: Reminder)
    ensures IsDigits(r.id) && IdValue(r) == counter
    ensures r.chatId == chatId && r.message == message && r.dateTime == dateTime && r.createdAt == now
    ensures !r.sent
  {
    DecimalRoundTrip(counter);
    Reminder(DecimalString(counter), chatId, message, dateTime, now, false)
  }

  /** Ids are never reused: the id the counter gives out next belongs to no
      stored reminder, in any chat. */
  lemma IdIsFresh(m: map<ChatId, seq<Reminder>>, counter: nat)
    requires StoreWellFormed(m, counter)
    ensures forall c, x :: c in m && x in m[c] ==> x.id != DecimalString(counter)
  {
    DecimalRoundTrip(counter);
  }

  /** Appending the new reminder and moving the counter on keeps the store well formed. */
  lemma AddKeepsWellFormed(m: map<ChatId, seq<Reminder>>, counter: nat, r: Reminder)
    requires StoreWellFormed(m, counter)
    requires r == NewReminder(counter, r.chatId, r.message, r.dateTime, r.createdAt)
    ensures StoreWellFormed(m[r.chatId := ListOf(m, r.chatId) + [r]], counter + 1)
  {
    DecimalRoundTrip(counter);
    var l := ListOf(m, r.chatId);
    var l' := l + [r];
    assert IdValue(r) == counter;
    forall i, j | 0 <= i < j < |l'| ensures IdValue(l'[i]) < IdValue(l'[j]) {
      assert l'[i] in l;
      if j == |l| {
        assert l'[j] == r;
      } else {
        assert l'[j] == l[j];
      }
    }
  }

  /** `findIndex(r => r.id === id && !r.sent)`: the first unsent reminder with
      exactly that id, or -1. */
  function FindCancellable(l: seq<Reminder>, id: string): (k: int)
    ensures -1 <= k < |l|
    ensures k >= 0 ==> l[k].id == id && !l[k].sent
    ensures forall i :: 0 <= i < |l| && (k == -1 || i < k) ==> !(l[i].id == id && !l[i].sent)
  {
    if l == [] then -1
    else if l[0].id == id && !l[0].sent then 0
    else
      var k := FindCancellable(l[1..], id);
      if k == -1 then -1 else k + 1
  }

  /** Cancelling twice: once the first unsent match is spliced out, no unsent
      reminder with that id is left, so a second cancel finds nothing. */
  lemma CancelTwice(l: seq<Reminder>, id: string)
    requires IdsIncreasing(l)
    requires FindCancellable(l, id) >= 0
    ensures FindCancellable(RemoveAt(l, FindCancellable(l, id)), id) == -1
  {
    var k := FindCancellable(l, id);
    var r := RemoveAt(l, k);
    forall i | 0 <= i < |r| ensures r[i].id != id {
      var j := if i < k then i else i + 1;
      assert r[i] == l[j] && j != k;
      if j < k {
        assert IdValue(l[j]) < IdValue(l[k]);
      } else {
        assert IdValue(l[k]) < IdValue(l[j]);
      }
    }
  }

  /** The success callback of a dispatch, `reminder.sent = true`, on the
      reminder of the list with id `id`: only the flag changes, and only from
      false to true. */
  function SetSent(l: seq<Reminder>, id: string): (r: seq<Reminder>)
    ensures |r| == |l|
    ensures forall i :: 0 <= i < |l| ==>
              && r[i].id == l[i].id && r[i].chatId == l[i].chatId && r[i].message == l[i].message
              && r[i].dateTime == l[i].dateTime && r[i].createdAt == l[i].createdAt
    ensures forall i :: 0 <= i < |l| ==> r[i].sent == (l[i].sent || l[i].id == id)
  {
    if l == [] then []
    else [if l[0].id == id then l[0].(sent := true) else l[0]] + SetSent(l[1..], id)
  }

  lemma SetSentWellFormed(c: ChatId, l: seq<Reminder>, id: string, counter: nat)
    requires ListWellFormed(c, l, counter)
    ensures ListWellFormed(c, SetSent(l, id), counter)
  {
    var r := SetSent(l, id);
    forall x | x in r ensures x.chatId == c && IsDigits(x.id) && DecimalValue(x.id) < counter {
      var i :| 0 <= i < |r| && r[i] == x;
      assert l[i] in l;
    }
  }

  /** A reminder whose dispatch succeeded is never chosen again: once it is
      marked sent, no due reminder with its id is left in the list. */
  lemma SentNotRedispatched(l: seq<Reminder>, id: string, now: int)
    ensures forall x :: x in Keep(SetSent(l, id), DueAt(now)) ==> x.id != id
  {
    var r := SetSent(l, id);
    forall x | x in r && x.id == id ensures x.sent {
      var i :| 0 <= i < |r| && r[i] == x;
      assert r[i].id == l[i].id;
    }
  }

  /** The cleanup of one tick: every chat's list filtered with `IsRetained`. */
  function Swept(m: map<ChatId, seq<Reminder>>, now: int): (m': map<ChatId, seq<Reminder>>)
    ensures m'.Keys == m.Keys
    ensures forall c, x :: c in m ==> (x in m'[c] <==> x in m[c] && (!x.sent || x.dateTime > now - DAY_MS))
    ensures forall c :: c in m ==> IsSubsequence(m'[c], m[c])
  {
    forall c | c in m ensures IsSubsequence(Keep(m[c], RetainedAt(now)), m[c]) {
      KeepIsSubsequence(m[c], RetainedAt(now));
    }
    map c | c in m :: Keep(m[c], RetainedAt(now))
  }

  lemma SweptWellFormed(m: map<ChatId, seq<Reminder>>, now: int, counter: nat)
    requires StoreWellFormed(m, counter)
    ensures StoreWellFormed(Swept(m, now), counter)
  {
    forall c | c in m ensures ListWellFormed(c, Swept(m, now)[c], counter) {
      SubsequenceWellFormed(c, Swept(m, now)[c], m[c], counter);
    }
  }

  /** What one tick dispatches, visiting the chats in the order `cs`: each
      chat's due reminders in list order. */
  function DueAcross(m: map<ChatId, seq<Reminder>>, cs: seq<ChatId>, now: int): (r: seq<Reminder>)
    ensures forall x :: x in r ==> IsDue(x, now)
  {
    if cs == [] then []
    else DueAcross(m, cs[..|cs| - 1], now) + Keep(ListOf(m, cs[|cs| - 1]), DueAt(now))
  }

  /** What a visit of the chats `cs` dispatches is due and in the list of
      one of them. */
  lemma {:induction false} DueAcrossSound(m: map<ChatId, seq<Reminder>>, cs: seq<ChatId>, now: int, x: Reminder)
    requires x in DueAcross(m, cs, now)
    ensures IsDue(x, now)
    ensures exists c :: c in cs && x in ListOf(m, c)
  {
    var init := cs[..|cs| - 1];
    var last := cs[|cs| - 1];
    assert cs == init + [last];
    if x in DueAcross(m, init, now) {
      DueAcrossSound(m, init, now, x);
      var c :| c in init && x in ListOf(m, c);
      assert c in cs;
    } else {
      assert x in Keep(ListOf(m, last), DueAt(now));
      assert last in cs;
    }
  }

  /** A due reminder in the list of one of the chats `cs` is dispatched by a
      visit of them. */
  lemma {:induction false} DueAcrossComplete(m: map<ChatId, seq<Reminder>>, cs: seq<ChatId>, now: int, c: ChatId, x: Reminder)
    requires c in cs && x in ListOf(m, c) && IsDue(x, now)
    ensures x in DueAcross(m, cs, now)
  {
    var init := cs[..|cs| - 1];
    var last := cs[|cs| - 1];
    assert cs == init + [last];
    if c == last {
      assert x in Keep(ListOf(m, last), DueAt(now));
    } else {
      DueAcrossComplete(m, init, now, c, x);
    }
  }

  /** A reminder is dispatched by a visit of the chats `cs` exactly when it is
      due and in the list of one of them. */
  lemma DueAcrossMember(m: map<ChatId, seq<Reminder>>, cs: seq<ChatId>, now: int, x: Reminder)
    ensures x in DueAcross(m, cs, now) <==> (exists c :: c in cs && x in ListOf(m, c)) && IsDue(x, now)
  {
    if x in DueAcross(m, cs, now) {
      DueAcrossSound(m, cs, now, x);
    }
    if IsDue(x, now) && exists c :: c in cs && x in ListOf(m, c) {
      var c :| c in cs && x in ListOf(m, c);
      DueAcrossComplete(m, cs, now, c, x);
    }
  }

  /** No element occurs twice. */
  predicate Distinct(s: seq<Reminder>) {
    forall i, j :: 0 <= i < j < |s| ==> s[i] != s[j]
  }

  lemma IncreasingDistinct(l: seq<Reminder>)
    requires IdsIncreasing(l)
    ensures Distinct(l)
  {
    forall i, j | 0 <= i < j < |l| ensures l[i] != l[j] {
      assert IdValue(l[i]) < IdValue(l[j]);
    }
  }

  lemma DistinctConcat(a: seq<Reminder>, b: seq<Reminder>)
    requires Distinct(a) && Distinct(b)
    requires forall x :: x in a ==> x !in b
    ensures Distinct(a + b)
  {
    var ab := a + b;
    forall i, j | 0 <= i < j < |ab| ensures ab[i] != ab[j] {
      if j < |a| {
        assert ab[i] == a[i] && ab[j] == a[j];
      } else if i >= |a| {
        assert ab[i] == b[i - |a|] && ab[j] == b[j - |a|];
      } else {
        assert ab[i] == a[i] && a[i] in a;
        assert ab[j] == b[j - |a|] && b[j - |a|] in b;
      }
    }
  }

  /** A tick dispatches no reminder twice: visiting each chat once, the due
      reminders of one chat are distinct because their ids increase, and those
      of different chats differ in their chat. */
  lemma {:induction false} DueAcrossDistinct(m: map<ChatId, seq<Reminder>>, cs: seq<ChatId>, now: int, counter: nat)
    requires StoreWellFormed(m, counter)
    requires forall i, j :: 0 <= i < j < |cs| ==> cs[i] != cs[j]
    ensures Distinct(DueAcross(m, cs, now))
  {
    if cs != [] {
      var init := cs[..|cs| - 1];
      var last := cs[|cs| - 1];
      assert cs == init + [last];
      DueAcrossDistinct(m, init, now, counter);
      var l := ListOf(m, last);
      var due := Keep(l, DueAt(now));
      assert IdsIncreasing(l) by {
        if last in m {
          assert ListWellFormed(last, m[last], counter);
        }
      }
      KeepIsSubsequence(l, DueAt(now));
      SubsequenceIncreasing(due, l);
      IncreasingDistinct(due);
      forall y | y in due ensures y.chatId == last {
        assert y in l && last in m;
        assert ListWellFormed(last, m[last], counter);
      }
      forall x | x in DueAcross(m, init, now) ensures x.chatId != last {
        DueAcrossSound(m, init, now, x);
        var c :| c in init && x in ListOf(m, c);
        assert c in m && ListWellFormed(c, m[c], counter);
      }
      DistinctConcat(DueAcross(m, init, now), due);
    }
  }

  /** A tick that visits every chat dispatches exactly the due reminders:
      unsent, with their time at or before `now`. */
  lemma DispatchIsExactlyDue(m: map<ChatId, seq<Reminder>>, cs: seq<ChatId>, now: int)
    requires forall c :: c in m ==> c in cs
    ensures forall x :: x in DueAcross(m, cs, now) <==>
                          (exists c :: c in m && x in m[c]) && !x.sent && x.dateTime <= now
  {
    forall x ensures x in DueAcross(m, cs, now) <==>
                     (exists c :: c in m && x in m[c]) && !x.sent && x.dateTime <= now {
      DueAcrossMember(m, cs, now, x);
      if x in DueAcross(m, cs, now) {
        var c :| c in cs && x in ListOf(m, c);
        assert c in m && x in m[c];
      }
      if exists c :: c in m && x in m[c] {
        var c :| c in m && x in m[c];
        assert c in cs && x in ListOf(m, c);
      }
    }
  }

  /** Dispatch is asynchronous: the cleanup of the same tick still sees the
      dispatched reminders unsent and keeps them all. */
  lemma DispatchedSurviveSweep(m: map<ChatId, seq<Reminder>>, cs: seq<ChatId>, now: int)
    ensures forall x :: x in DueAcross(m, cs, now) ==>
                          exists c :: c in m && x in Swept(m, now)[c]
  {
    forall x | x in DueAcross(m, cs, now) ensures exists c :: c in m && x in Swept(m, now)[c] {
      DueAcrossMember(m, cs, now, x);
      var c :| c in cs && x in ListOf(m, c);
      assert c in m && x in Swept(m, now)[c];
    }
  }

  /** A reminder whose dispatch failed stays unsent, survives the cleanup, and
      is dispatched again by every later tick that visits all chats. */
  lemma FailedDispatchRetried(m: map<ChatId, seq<Reminder>>, cs: seq<ChatId>, c: ChatId, x: Reminder,
                              now: int, later: int)
    requires forall c :: c in m ==> c in cs
    requires c in m && x in m[c] && IsDue(x, now) && now <= later
    ensures c in Swept(m, now) && x in Swept(m, now)[c]
    ensures x in DueAcross(Swept(m, now), cs, later)
  {
    DispatchIsExactlyDue(Swept(m, now), cs, later);
  }

  lemma DueAcrossSnoc(m: map<ChatId, seq<Reminder>>, cs: seq<ChatId>, c: ChatId, now: int)
    ensures DueAcross(m, cs + [c], now) == DueAcross(m, cs, now) + Keep(ListOf(m, c), DueAt(now))
  {
    assert (cs + [c])[..|cs|] == cs;
  }

  /** The lists `m` once the chats of `done` have been swept. */
  function PartlySwept(m: map<ChatId, seq<Reminder>>, done: seq<ChatId>, now: int): map<ChatId, seq<Reminder>> {
    map c | c in m :: if c in done then Keep(m[c], RetainedAt(now)) else m[c]
  }

  lemma PartlySweptStep(m: map<ChatId, seq<Reminder>>, done: seq<ChatId>, c: ChatId, now: int)
    requires c in m
    ensures PartlySwept(m, done + [c], now) == PartlySwept(m, done, now)[c := Keep(m[c], RetainedAt(now))]
  {
    forall d | d in m ensures PartlySwept(m, done + [c], now)[d] == PartlySwept(m, done, now)[c := Keep(m[c], RetainedAt(now))][d] {
      assert d in done + [c] <==> d in done || d == c;
    }
  }

  lemma PartlySweptUntouched(m: map<ChatId, seq<Reminder>>, done: seq<ChatId>, c: ChatId, now: int)
    requires c in m && c !in done
    ensures c in PartlySwept(m, done, now) && PartlySwept(m, done, now)[c] == ListOf(m, c)
  {
  }

  lemma PartlySweptAll(m: map<ChatId, seq<Reminder>>, cs: seq<ChatId>, now: int)
    requires forall c :: c in m ==> c in cs
    ensures PartlySwept(m, cs, now) == Swept(m, now)
  {
    forall c | c in m ensures PartlySwept(m, cs, now)[c] == Swept(m, now)[c] {
    }
  }

  /** Visiting chat `cs[k]` after the chats before it: its list is still the
      original one, and both the swept lists and the dispatched reminders grow
      by that list's share. */
  lemma TickStep(m: map<ChatId, seq<Reminder>>, cs: seq<ChatId>, k: nat, now: int)
    requires k < |cs| && cs[k] in m
    requires forall i, j :: 0 <= i < j < |cs| ==> cs[i] != cs[j]
    ensures cs[k] in PartlySwept(m, cs[..k], now) && PartlySwept(m, cs[..k], now)[cs[k]] == ListOf(m, cs[k])
    ensures PartlySwept(m, cs[..k + 1], now) ==
              PartlySwept(m, cs[..k], now)[cs[k] := Keep(ListOf(m, cs[k]), RetainedAt(now))]
    ensures DueAcross(m, cs[..k + 1], now) == DueAcross(m, cs[..k], now) + Keep(ListOf(m, cs[k]), DueAt(now))
  {
    assert cs[k] !in cs[..k];
    PartlySweptUntouched(m, cs[..k], cs[k], now);
    assert cs[..k + 1] == cs[..k] + [cs[k]];
    DueAcrossSnoc(m, cs[..k], cs[k], now);
    PartlySweptStep(m, cs[..k], cs[k], now);
  }

  /** The inner loop of `checkReminders` over one chat's list: the reminders it
      hands to `sendReminder`, in list order. */
  method DueIn(list: seq<Reminder>, now: int) returns (due: seq<Reminder>)
    ensures due == Keep(list, DueAt(now))
  {
    due := [];
    var j := 0;
    while j < |list|
      invariant 0 <= j <= |list|
      invariant due == Keep(list[..j], DueAt(now))
    {
      var r := list[j];
      assert list[..j + 1] == list[..j] + [r];
      KeepSnoc(list[..j], r, DueAt(now));
      if !r.sent && r.dateTime <= now {
        due := due + [r];
      }
      j := j + 1;
    }
    assert list[..|list|] == list;
  }

  /** One run of the `checkReminders` loops over the lists `m`, chats visited
      in the order `cs`: each chat's due reminders are handed to `sendReminder`
      (collected in `dispatched`), then its list is cut down to what is
      retained. */
  method Tick(m: map<ChatId, seq<Reminder>>, cs: seq<ChatId>, now: int)
    returns (store: map<ChatId, seq<Reminder>>, dispatched: seq<Reminder>)
    requires forall c :: c in m <==> c in cs
    requires forall i, j :: 0 <= i < j < |cs| ==> cs[i] != cs[j]
    ensures store == Swept(m, now)
    ensures dispatched == DueAcross(m, cs, now)
  {
    store := m;
    dispatched := [];
    var k := 0;
    assert PartlySwept(m, [], now) == m;
    while k < |cs|
      invariant 0 <= k <= |cs|
      invariant store == PartlySwept(m, cs[..k], now)
      invariant dispatched == DueAcross(m, cs[..k], now)
    {
      var chatId := cs[k];
      TickStep(m, cs, k, now);
      var list := store[chatId];
      var due := DueIn(list, now);
      dispatched := dispatched + due;
      store := store[chatId := Keep(list, RetainedAt(now))];
      k := k + 1;
    }
    assert cs[..k] == cs;
    PartlySweptAll(m, cs, now);
  }

  class ReminderManager {
    var reminders: map<ChatId, seq<Reminder>>
    /** The chats in the order they were first added: a Map's iteration order. */
    var chats: seq<ChatId>
    var reminderIdCounter: nat

    ghost predicate Valid()
      reads this
    {
      && 1 <= reminderIdCounter
      && (forall c :: c in reminders <==> c in chats)
      && (forall i, j :: 0 <= i < j < |chats| ==> chats[i] != chats[j])
      && StoreWellFormed(reminders, reminderIdCounter)
    }

    constructor ()
      ensures Valid()
      ensures reminders == map[] && chats == [] && reminderIdCounter == 1
    {
      reminders := map[];
      chats := [];
      reminderIdCounter := 1;
    }

    /** `addReminder`: the new reminder takes the counter's value as its id,
        is unsent, and goes at the end of its chat's list (created if absent);
        no other chat's list changes. */
    method AddReminder(chatId: ChatId, message: string, dateTime: int, now: int) returns (r: Reminder)
      requires Valid()
      modifies this
      ensures Valid()
      ensures r == NewReminder(old(reminderIdCounter), chatId, message, dateTime, now)
      ensures reminderIdCounter == old(reminderIdCounter) + 1
      ensures reminders == old(reminders)[chatId := ListOf(old(reminders), chatId) + [r]]
      ensures chats == if chatId in old(reminders) then old(chats) else old(chats) + [chatId]
      ensures forall c, x :: c in old(reminders) && x in old(reminders)[c] ==> x.id != r.id
    {
      IdIsFresh(reminders, reminderIdCounter);
      var id := reminderIdCounter;
      reminderIdCounter := reminderIdCounter + 1;
      r := Reminder(DecimalString(id), chatId, message, dateTime, now, false);
      AddKeepsWellFormed(reminders, id, r);
      if chatId !in reminders {
        reminders := reminders[chatId := []];
        chats := chats + [chatId];
      }
      reminders := reminders[chatId := reminders[chatId] + [r]];
      assert reminders == old(reminders)[chatId := ListOf(old(reminders), chatId) + [r]];
    }

    /** `getUserReminders`: the chat's unsent reminders, in insertion order; an
        unknown chat has none. */
    function GetUserReminders(chatId: ChatId): (rs: seq<Reminder>)
      reads this
      ensures forall x :: x in rs <==> chatId in reminders && x in reminders[chatId] && !x.sent
      ensures IsSubsequence(rs, ListOf(reminders, chatId))
    {
      KeepIsSubsequence(ListOf(reminders, chatId), Unsent);
      Keep(ListOf(reminders, chatId), Unsent)
    }

    /** `cancelReminder`: splices out the chat's first unsent reminder with
        exactly this id and says whether there was one. */
    method CancelReminder(chatId: ChatId, reminderId: string) returns (ok: bool)
      requires Valid()
      modifies this
      ensures Valid()
      ensures ok == (chatId in old(reminders) && FindCancellable(old(reminders)[chatId], reminderId) >= 0)
      ensures ok ==> reminders == old(reminders)[chatId := RemoveAt(old(reminders)[chatId],
                                                                   FindCancellable(old(reminders)[chatId], reminderId))]
      ensures !ok ==> reminders == old(reminders)
      ensures chats == old(chats) && reminderIdCounter == old(reminderIdCounter)
    {
      if chatId !in reminders {
        return false;
      }
      var list := reminders[chatId];
      var index := FindCancellable(list, reminderId);
      if index == -1 {
        return false;
      }
      RemoveAtIsSubsequence(list, index);
      SubsequenceWellFormed(chatId, RemoveAt(list, index), list, reminderIdCounter);
      reminders := reminders[chatId := RemoveAt(list, index)];
      ok := true;
    }

    /** `checkReminders` at `now`: visits the chats in order, dispatches each
        due reminder of the chat's list (returned here, in that order), then
        keeps of the list only what `IsRetained`. */
    method CheckReminders(now: int) returns (dispatched: seq<Reminder>)
      requires Valid()
      modifies this
      ensures Valid()
      ensures dispatched == DueAcross(old(reminders), chats, now)
      ensures Distinct(dispatched)
      ensures reminders == Swept(old(reminders), now)
      ensures chats == old(chats) && reminderIdCounter == old(reminderIdCounter)
    {
      DueAcrossDistinct(reminders, chats, now, reminderIdCounter);
      var store;
      store, dispatched := Tick(reminders, chats, now);
      SweptWellFormed(reminders, now, reminderIdCounter);
      reminders := store;
    }

    /** The success branch of `sendReminder`: the dispatched reminder `r` is
        marked sent in its chat's list. Ids are unique within a chat, so the id
        picks out the very record that was dispatched; if it has been
        cancelled meanwhile, nothing changes. */
    method MarkSent(r: Reminder)
      requires Valid()
      modifies this
      ensures Valid()
      ensures reminders == if r.chatId in old(reminders)
                           then old(reminders)[r.chatId := SetSent(old(reminders)[r.chatId], r.id)]
                           else old(reminders)
      ensures chats == old(chats) && reminderIdCounter == old(reminderIdCounter)
    {
      if r.chatId in reminders {
        SetSentWellFormed(r.chatId, reminders[r.chatId], r.id, reminderIdCounter);
        reminders := reminders[r.chatId := SetSent(reminders[r.chatId], r.id)];
      }
    }
  }
}
