/**
 What becomes of an invitation (src/XivLantern.Core/NostrInbox.cs:28-105): which offers are listed,
 that a dismissed one does not come back, and that a failed acceptance is as if it had not begun.
 */
module InviteOutcomes {
  import opened HexText
  import opened Results
  import opened NostrInboxes

  // ------------------------------------------------------------ offers

  /** A friend invitation in bounds from a well-formed sender. */
  predicate Readable(c: Codec, sender: Text, ticket: Text) {
    IsHash(sender) && 1 <= |ticket| <= 4096 && c.friendInvite(ticket).Some?
  }

  /** The entry it makes. */
  function Entry(c: Codec, sender: Text, ticket: Text): Invite
    requires Readable(c, sender, ticket)
  {
    var canonical := c.friendInvite(ticket).value;
    Invite(c.keyOf(Lower(sender), canonical), Lower(sender), canonical, 0)
  }

  /** Neither listed nor dismissed before, and room among the 32 entries and the sender's four. */
  predicate HasPlace(x: Inbox, p: Invite) {
    && p.key !in x.ignored && (forall i | 0 <= i < |x.pending| :: x.pending[i].key != p.key)
    && |x.pending| < 32 && OfSender(x.pending, p.sender) < 4
  }

  lemma CandidateExactly(c: Codec, x: Inbox, sender: Text, ticket: Text)
    ensures Candidate(c, x, sender, ticket).Some? <==>
      Readable(c, sender, ticket) && HasPlace(x, Entry(c, sender, ticket))
    ensures Candidate(c, x, sender, ticket).Some? ==> Candidate(c, x, sender, ticket).value == Entry(c, sender, ticket)
  {
    if Readable(c, sender, ticket) {
      var key := Entry(c, sender, ticket).key;
      var i := IndexOf(x.pending, OfKey(key));
      assert forall j | 0 <= j < |x.pending| :: Matches(OfKey(key), x.pending[j]) <==> x.pending[j].key == key;
    }
  }

  /** An offer adds its entry at the end, counted at the effective time, or changes neither list nor log. */
  lemma OfferAddsOrNot(c: Codec, x: Inbox, sender: Text, ticket: Text, clock: int)
    ensures var next := Next(c, x, Event.Add(sender, ticket, clock));
      && next.ignored == x.ignored
      && ((next.pending == x.pending && next.log == x.log)
          || (Readable(c, sender, ticket) && HasPlace(x, Entry(c, sender, ticket))
              && next.pending == x.pending + [Entry(c, sender, ticket)]
              && next.log == x.log + [Admission(EffectiveNow(x, clock), Lower(sender))]))
  {
    CandidateExactly(c, x, sender, ticket);
  }

  /** Fewer than 64 admissions, and fewer than eight of the sender, in the 30 seconds up to now. */
  predicate Quiet(x: Inbox, sender: Text, now: int) {
    Within(x.log, now - 29999, now + 1, None) < 64 && Within(x.log, now - 29999, now + 1, Some(sender)) < 8
  }

  lemma {:induction false} NothingLater(log: seq<Admission>, from: int, to: int, last: int, who: Option<Text>)
    requires last < to && forall i | 0 <= i < |log| :: log[i].time <= last
    ensures Within(log, from, to, who) == Within(log, from, last + 1, who)
  {
    if log != [] { NothingLater(log[..|log| - 1], from, to, last, who); }
  }

  lemma CounterIsRecent(x: Inbox, now: int, who: Option<Text>)
    requires Clocked(x) && Counted(x, who) && now >= x.lastNow && now - 29999 <= x.windowStart
    ensures Counter(x, who) <= Within(x.log, now - 29999, now + 1, who)
  {
    var w := x.windowStart;
    NothingLater(x.log, w, w + WINDOW, x.lastNow, who);
    WithinGrows(x.log, w, x.lastNow + 1, now - 29999, now + 1, who);
  }

  lemma QuietHasRoom(x: Inbox, sender: Text, now: int)
    requires WindowOk(x) && now >= x.lastNow && Quiet(x, sender, now)
    ensures HasRoom(Rolled(x, now), sender)
  {
    if x.windowStart >= 0 && now - x.windowStart < WINDOW {
      assert Counted(x, None) && Counted(x, Some(sender));
      CounterIsRecent(x, now, None);
      CounterIsRecent(x, now, Some(sender));
    }
  }

  /** In every reachable state: a readable offer that has a place is listed where the last 30 seconds were quiet. */
  lemma {:induction false} QuietOfferIsListed(c: Codec, keys: seq<Text>, events: seq<Event>,
    sender: Text, ticket: Text, clock: int)
    requires Readable(c, sender, ticket)
    requires var x := Run(c, Fresh(keys), events);
      HasPlace(x, Entry(c, sender, ticket)) && Quiet(x, Lower(sender), EffectiveNow(x, clock))
    ensures var x := Run(c, Fresh(keys), events);
      Next(c, x, Event.Add(sender, ticket, clock)).pending == x.pending + [Entry(c, sender, ticket)]
  {
    var x := Run(c, Fresh(keys), events);
    FreshWindowOk(keys);
    RunKeepsWindow(c, Fresh(keys), events);
    CandidateExactly(c, x, sender, ticket);
    QuietHasRoom(x, Lower(sender), EffectiveNow(x, clock));
  }

  // ------------------------------------------------------------ dismissals

  /** The list without its `i`-th entry. */
  function Without(pending: seq<Invite>, i: nat): seq<Invite>
    requires i < |pending|
  {
    pending[..i] + pending[i + 1..]
  }

  /** The key stands among the last `age + 1` remembered ones. */
  ghost predicate RememberedWithin(ignored: seq<Text>, key: Text, age: nat) {
    exists i :: 0 <= i < |ignored| && ignored[i] == key && |ignored| - i <= age + 1
  }

  lemma NewKeyIsRemembered(ignored: seq<Text>, key: Text)
    requires |ignored| <= 256
    ensures key in Remembered(ignored, key)
    ensures key !in ignored ==> RememberedWithin(Remembered(ignored, key), key, 0)
  {
    var more := ignored + [key];
    assert more[|ignored|] == key;
    if key !in ignored {
      var kept := Remembered(ignored, key);
      assert kept[|kept| - 1] == key;
    }
  }

  /** One more key makes it one older, and pushes it out only after 255 others. */
  lemma KeyAges(ignored: seq<Text>, key: Text, age: nat, other: Text)
    requires |ignored| <= 256 && RememberedWithin(ignored, key, age) && age < 255
    ensures RememberedWithin(Remembered(ignored, other), key, age + 1)
  {
    var i :| 0 <= i < |ignored| && ignored[i] == key && |ignored| - i <= age + 1;
    var kept := Remembered(ignored, other);
    if other in ignored {
      assert kept[i] == key;
    } else if |ignored| < 256 {
      assert kept[i] == key;
    } else {
      assert kept[i - 1] == key;
    }
  }

  predicate Dismisses(e: Event) {
    e.Ignore? || (e.Complete? && e.success)
  }

  /** Dismissals among the events: every one remembers at most one key. */
  function Dismissals(events: seq<Event>): nat {
    if events == [] then 0 else (if Dismisses(events[0]) then 1 else 0) + Dismissals(events[1..])
  }

  /** A step remembers one key at most, and then it is a dismissal. */
  lemma StepRemembers(c: Codec, x: Inbox, e: Event) returns (other: Option<Text>)
    ensures Next(c, x, e).ignored == if other.Some? then Remembered(x.ignored, other.value) else x.ignored
    ensures other.Some? ==> Dismisses(e)
  {
    other := None;
    match e
    case Ignore(key) =>
      var i := IndexOf(x.pending, Open(key));
      if i >= 0 { other := Some(x.pending[i].key); }
    case Complete(handle, success) =>
      var i := IndexOf(x.pending, OfHandle(handle));
      if handle != 0 && i >= 0 && success { other := Some(x.pending[i].key); }
    case _ =>
  }

  lemma LongerAgo(ignored: seq<Text>, key: Text, age: nat, more: nat)
    requires RememberedWithin(ignored, key, age) && age <= more
    ensures RememberedWithin(ignored, key, more)
  {
    var i :| 0 <= i < |ignored| && ignored[i] == key && |ignored| - i <= age + 1;
    assert |ignored| - i <= more + 1;
  }

  lemma StepAges(c: Codec, x: Inbox, e: Event, key: Text, age: nat, older: nat)
    requires |x.ignored| <= 256 && RememberedWithin(x.ignored, key, age)
    requires older == age + (if Dismisses(e) then 1 else 0) && older <= 255
    ensures RememberedWithin(Next(c, x, e).ignored, key, older)
  {
    var other := StepRemembers(c, x, e);
    if other.Some? { KeyAges(x.ignored, key, age, other.value); } else { LongerAgo(x.ignored, key, age, older); }
  }

  lemma {:induction false} StaysRemembered(c: Codec, x: Inbox, events: seq<Event>, key: Text, age: nat)
    requires ListsOk(x) && RememberedWithin(x.ignored, key, age) && age + Dismissals(events) <= 255
    ensures ListsOk(Run(c, x, events)) && key in Run(c, x, events).ignored
    decreases |events|
  {
    if events != [] {
      var older := age + if Dismisses(events[0]) then 1 else 0;
      StepAges(c, x, events[0], key, age, older);
      StepKeepsLists(c, x, events[0]);
      StaysRemembered(c, Next(c, x, events[0]), events[1..], key, older);
    }
  }

  /** Ignoring an open entry, or completing its acceptance, takes exactly it off the list and remembers its key. */
  lemma DismissalShows(c: Codec, x: Inbox, i: nat, e: Event)
    requires ListsOk(x) && i < |x.pending|
    requires || (e == Ignore(x.pending[i].key) && x.pending[i].acceptHandle == 0)
             || (e == Complete(x.pending[i].acceptHandle, true) && x.pending[i].acceptHandle != 0)
    ensures var next := Next(c, x, e);
      && next.pending == Without(x.pending, i) && next.log == x.log
      && RememberedWithin(next.ignored, x.pending[i].key, 0)
  {
    var p := x.pending[i];
    if e.Ignore? {
      assert Matches(Open(p.key), x.pending[i]);
      assert IndexOf(x.pending, Open(p.key)) == i;
    } else {
      assert Matches(OfHandle(p.acceptHandle), x.pending[i]);
      assert IndexOf(x.pending, OfHandle(p.acceptHandle)) == i;
    }
    NewKeyIsRemembered(x.ignored, p.key);
  }

  /**
   In every run: a dismissed invitation is not listed again, by whatever offers, before 255 others
   have been dismissed after it.
   */
  lemma {:induction false} DismissedStaysOut(c: Codec, keys: seq<Text>, before: seq<Event>, i: nat, e: Event, later: seq<Event>)
    requires i < |Run(c, Fresh(keys), before).pending| && Dismissals(later) <= 255
    requires var p := Run(c, Fresh(keys), before).pending[i];
      || (e == Ignore(p.key) && p.acceptHandle == 0)
      || (e == Complete(p.acceptHandle, true) && p.acceptHandle != 0)
    ensures var x := Run(c, Fresh(keys), before);
      var after := Run(c, Next(c, x, e), later);
      forall j | 0 <= j < |after.pending| :: after.pending[j].key != x.pending[i].key
  {
    var x := Run(c, Fresh(keys), before);
    FreshListsOk(keys);
    RunKeepsLists(c, Fresh(keys), before);
    DismissalShows(c, x, i, e);
    StepKeepsLists(c, x, e);
    StaysRemembered(c, Next(c, x, e), later, x.pending[i].key, 0);
  }

  lemma FreshListsOk(keys: seq<Text>)
    ensures ListsOk(Fresh(keys))
  {
    ImportingKeepsOnce(keys);
    assert forall sender: Text :: OfSender([], sender) == 0;
  }

  // ------------------------------------------------------------ acceptance

  /** Starting to accept marks exactly the open entry; a failure leaves the list as it was, a success takes the entry off. */
  lemma AcceptanceShows(c: Codec, x: Inbox, i: nat, handle: nat)
    requires ListsOk(x) && i < |x.pending| && x.pending[i].acceptHandle == 0 && handle > 0
    requires forall j | 0 <= j < |x.pending| :: x.pending[j].acceptHandle != handle
    ensures var accepting := Next(c, x, AcceptStarted(x.pending[i].key, handle));
      && accepting == x.(pending := x.pending[i := x.pending[i].(acceptHandle := handle)])
      && Next(c, accepting, Complete(handle, false)) == x
      && Next(c, accepting, Complete(handle, true)).pending == Without(x.pending, i)
      && x.pending[i].key in Next(c, accepting, Complete(handle, true)).ignored
  {
    var p := x.pending[i];
    assert Matches(Open(p.key), x.pending[i]);
    assert IndexOf(x.pending, Open(p.key)) == i;
    var accepting := Next(c, x, AcceptStarted(p.key, handle));
    assert Matches(OfHandle(handle), accepting.pending[i]);
    assert IndexOf(accepting.pending, OfHandle(handle)) == i;
    assert accepting.pending[i := p] == x.pending;
    ReplacingKeepsLists(x, i, handle);
    DismissalShows(c, accepting, i, Complete(handle, true));
  }

  // ------------------------------------------------------------ what is saved

  lemma LowerStays(key: Text)
    requires IsLowerHash(key)
    ensures IsHash(key) && Lower(key) == key
  {
    forall i | 0 <= i < 64 ensures IsHex(key[i]) && Lower(key)[i] == key[i] { assert IsLowerHex(key[i]); }
  }

  /** The remembered keys of one session are exactly those of the next. */
  lemma {:induction false} SavedKeysComeBack(keys: seq<Text>)
    requires KeysOnce(keys) && |keys| <= 256 && forall i | 0 <= i < |keys| :: IsLowerHash(keys[i])
    ensures Imported(keys) == keys
  {
    if keys != [] {
      var front, last := keys[..|keys| - 1], keys[|keys| - 1];
      SavedKeysComeBack(front);
      LowerStays(last);
      assert keys == front + [last] && last !in front;
    }
  }

  /** And keys in any spelling are remembered, in lower case, while there are at most 256. */
  lemma {:induction false} ImportedKeysAreRemembered(keys: seq<Text>, key: Text)
    requires |keys| <= 256
    ensures key in Imported(keys) <==> exists i :: 0 <= i < |keys| && IsHash(keys[i]) && Lower(keys[i]) == key
    ensures |Imported(keys)| <= |keys|
  {
    if keys != [] {
      var front, last := keys[..|keys| - 1], keys[|keys| - 1];
      ImportedKeysAreRemembered(front, key);
      if exists i :: 0 <= i < |front| && IsHash(front[i]) && Lower(front[i]) == key {
        var i :| 0 <= i < |front| && IsHash(front[i]) && Lower(front[i]) == key;
        assert keys[i] == front[i];
      }
      if exists i :: 0 <= i < |keys| && IsHash(keys[i]) && Lower(keys[i]) == key {
        var i :| 0 <= i < |keys| && IsHash(keys[i]) && Lower(keys[i]) == key;
        assert i < |front| ==> front[i] == keys[i];
      }
    }
  }
}
