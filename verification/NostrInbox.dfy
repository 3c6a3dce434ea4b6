/**
 Pending invitations over a fixed admission window (src/XivLantern.Core/NostrInbox.cs).

 Reading the ticket and hashing the invitation's key are parameters. Every call that asks the
 clock carries the value it got, which may be anything: the inbox's own effective time is the
 greatest value seen so far, from zero on. `log` is what has been admitted, for the theorems.
 */
module NostrInboxes {
  import opened HexText
  import opened Results

  const CAPACITY := 32
  const SENDER_CAPACITY := 4
  const IGNORE_CAPACITY := 256
  const SENDER_WINDOW_LIMIT := 8
  const WINDOW_LIMIT := 64
  const WINDOW: int := 30000

  datatype Invite = Invite(key: Text, sender: Text, ticket: Text, acceptHandle: nat)

  /** The canonical friend invite in a ticket, if it is nothing else; and the hash of an invitation. */
  datatype Codec = Codec(friendInvite: Text -> Option<Text>, keyOf: (Text, Text) -> Text)

  datatype Admission = Admission(time: int, sender: Text)

  datatype Inbox = Inbox(
    pending: seq<Invite>, ignored: seq<Text>, admissions: map<Text, nat>,
    windowStart: int, lastNow: int, windowCount: nat, log: seq<Admission>)

  // ------------------------------------------------------------ searching

  datatype Query = Open(key: Text) | OfKey(key: Text) | OfHandle(handle: nat)

  predicate Matches(q: Query, p: Invite) {
    match q
    case Open(key) => p.key == key && p.acceptHandle == 0
    case OfKey(key) => p.key == key
    case OfHandle(handle) => p.acceptHandle == handle
  }

  /** FindIndex */
  function IndexOf(pending: seq<Invite>, q: Query): (i: int)
    ensures -1 <= i < |pending|
    ensures i >= 0 ==> Matches(q, pending[i])
    ensures i < 0 ==> forall j | 0 <= j < |pending| :: !Matches(q, pending[j])
  {
    if pending == [] then -1
    else
      var i := IndexOf(pending[..|pending| - 1], q);
      if i >= 0 then i else if Matches(q, pending[|pending| - 1]) then |pending| - 1 else -1
  }

  function OfSender(pending: seq<Invite>, sender: Text): nat {
    if pending == [] then 0
    else OfSender(pending[..|pending| - 1], sender) + if pending[|pending| - 1].sender == sender then 1 else 0
  }

  function RemovedAt(pending: seq<Invite>, i: nat): seq<Invite>
    requires i < |pending|
  {
    pending[..i] + pending[i + 1..]
  }

  // ------------------------------------------------------------ the steps

  datatype Event =
    | Add(sender: Text, ticket: Text, clock: int)
    | AcceptStarted(key: Text, handle: nat)
    | Complete(handle: nat, success: bool)
    | Ignore(key: Text)
    | ClearPending

  /** The invitation in an offer, if the pending list and the ignored keys leave room for it. */
  function Candidate(c: Codec, x: Inbox, sender: Text, ticket: Text): Option<Invite> {
    if !IsHash(sender) || ticket == [] || |ticket| > 4096 then None
    else
      match c.friendInvite(ticket)
      case None => None
      case Some(canonical) =>
        var lowered := Lower(sender);
        var key := c.keyOf(lowered, canonical);
        if key in x.ignored || IndexOf(x.pending, OfKey(key)) >= 0 || |x.pending| >= CAPACITY
           || OfSender(x.pending, lowered) >= SENDER_CAPACITY
        then None
        else Some(Invite(key, lowered, canonical, 0))
  }

  function EffectiveNow(x: Inbox, clock: int): int {
    if x.lastNow >= clock then x.lastNow else clock
  }

  /** A new window starts once the old one has run its 30 seconds. */
  function Rolled(x: Inbox, now: int): Inbox {
    if x.windowStart < 0 || now - x.windowStart >= WINDOW
    then x.(lastNow := now, windowStart := now, windowCount := 0, admissions := map[])
    else x.(lastNow := now)
  }

  function Admitted(x: Inbox, sender: Text): nat {
    if sender in x.admissions then x.admissions[sender] else 0
  }

  predicate HasRoom(x: Inbox, sender: Text) {
    x.windowCount < WINDOW_LIMIT && Admitted(x, sender) < SENDER_WINDOW_LIMIT
  }

  function Admit(x: Inbox, p: Invite): Inbox {
    x.(admissions := x.admissions[p.sender := Admitted(x, p.sender) + 1], windowCount := x.windowCount + 1,
       pending := x.pending + [p], log := x.log + [Admission(x.lastNow, p.sender)])
  }

  function Remembered(ignored: seq<Text>, key: Text): seq<Text> {
    if key in ignored then ignored
    else if |ignored| + 1 > IGNORE_CAPACITY then (ignored + [key])[1..] else ignored + [key]
  }

  /** The inbox forgets the entry at `i` and remembers its key. */
  function Dismissed(x: Inbox, i: nat): Inbox
    requires i < |x.pending|
  {
    x.(ignored := Remembered(x.ignored, x.pending[i].key), pending := RemovedAt(x.pending, i))
  }

  function AfterAdd(c: Codec, x: Inbox, sender: Text, ticket: Text, clock: int): Inbox {
    match Candidate(c, x, sender, ticket)
    case None => x
    case Some(p) =>
      var rolled := Rolled(x, EffectiveNow(x, clock));
      if HasRoom(rolled, p.sender) then Admit(rolled, p) else rolled
  }

  predicate Starts(x: Inbox, key: Text, handle: nat) {
    IndexOf(x.pending, Open(key)) >= 0 && handle != 0 && IndexOf(x.pending, OfHandle(handle)) < 0
  }

  function Next(c: Codec, x: Inbox, e: Event): Inbox {
    match e
    case Add(sender, ticket, clock) => AfterAdd(c, x, sender, ticket, clock)
    case AcceptStarted(key, handle) =>
      if !Starts(x, key, handle) then x
      else
        var i := IndexOf(x.pending, Open(key));
        x.(pending := x.pending[i := x.pending[i].(acceptHandle := handle)])
    case Complete(handle, success) =>
      var i := IndexOf(x.pending, OfHandle(handle));
      if handle == 0 || i < 0 then x
      else if success then Dismissed(x, i)
      else x.(pending := x.pending[i := x.pending[i].(acceptHandle := 0)])
    case Ignore(key) =>
      var i := IndexOf(x.pending, Open(key));
      if i < 0 then x else Dismissed(x, i)
    case ClearPending => x.(pending := [])
  }

  function Imported(keys: seq<Text>): seq<Text> {
    if keys == [] then []
    else
      var front, last := Imported(keys[..|keys| - 1]), keys[|keys| - 1];
      if IsHash(last) then Remembered(front, Lower(last)) else front
  }

  function Fresh(keys: seq<Text>): Inbox {
    Inbox([], Imported(keys), map[], -1, 0, 0, [])
  }

  // ------------------------------------------------------------ the inbox

  class NostrInbox {
    var pending: seq<Invite>
    var ignored: seq<Text>
    var admissions: map<Text, nat>
    var windowStart: int
    var lastNow: int
    var windowCount: nat
    ghost var log: seq<Admission>

    ghost function State(): Inbox
      reads this
    {
      Inbox(pending, ignored, admissions, windowStart, lastNow, windowCount, log)
    }

    constructor (keys: seq<Text>)
      ensures State() == Fresh(keys)
    {
      pending, ignored, admissions, log := [], [], map[], [];
      windowStart, lastNow, windowCount := -1, 0, 0;
      new;
      for i := 0 to |keys|
        invariant State() == Fresh(keys[..i])
      {
        assert keys[..i + 1][..i] == keys[..i];
        var key := keys[i];
        if IsHash(key) && Lower(key) !in ignored {
          ignored := ignored + [Lower(key)];
          if |ignored| > IGNORE_CAPACITY { ignored := ignored[1..]; }
        }
      }
      assert keys[..|keys|] == keys;
    }

    method Add(c: Codec, sender: Text, ticket: Text, clock: int) returns (added: bool)
      modifies this
      ensures State() == Next(c, old(State()), Event.Add(sender, ticket, clock))
      ensures added <==> |log| > |old(log)|
    {
      if !IsHash(sender) || ticket == [] || |ticket| > 4096 { return false; }
      var canonical := c.friendInvite(ticket);
      if canonical.None? { return false; }
      var lowered := Lower(sender);
      var key := c.keyOf(lowered, canonical.value);
      if key in ignored || IndexOf(pending, OfKey(key)) >= 0 || |pending| >= CAPACITY
         || OfSender(pending, lowered) >= SENDER_CAPACITY { return false; }
      added := AdmitWithin(Invite(key, lowered, canonical.value, 0), clock);
    }

    /** Removing or ignoring a pending line does not bypass the window. */
    method AdmitWithin(p: Invite, clock: int) returns (added: bool)
      modifies this
      ensures var rolled := Rolled(old(State()), EffectiveNow(old(State()), clock));
        && added == HasRoom(rolled, p.sender)
        && State() == if added then Admit(rolled, p) else rolled
    {
      lastNow := if lastNow >= clock then lastNow else clock;
      if windowStart < 0 || lastNow - windowStart >= WINDOW {
        windowStart, windowCount, admissions := lastNow, 0, map[];
      }
      var count := if p.sender in admissions then admissions[p.sender] else 0;
      if windowCount >= WINDOW_LIMIT || count >= SENDER_WINDOW_LIMIT { return false; }
      admissions := admissions[p.sender := count + 1];
      windowCount := windowCount + 1;
      pending := pending + [p];
      log := log + [Admission(lastNow, p.sender)];
      added := true;
    }

    method AcceptStarted(c: Codec, key: Text, handle: nat) returns (started: bool)
      modifies this
      ensures State() == Next(c, old(State()), Event.AcceptStarted(key, handle))
      ensures started == Starts(old(State()), key, handle)
    {
      var index := IndexOf(pending, Open(key));
      if index < 0 || handle == 0 || IndexOf(pending, OfHandle(handle)) >= 0 { return false; }
      pending := pending[index := pending[index].(acceptHandle := handle)];
      started := true;
    }

    method Complete(c: Codec, handle: nat, success: bool) returns (known: bool)
      modifies this
      ensures State() == Next(c, old(State()), Event.Complete(handle, success))
      ensures known <==> handle != 0 && IndexOf(old(pending), OfHandle(handle)) >= 0
    {
      if handle == 0 { return false; }
      var index := IndexOf(pending, OfHandle(handle));
      if index < 0 { return false; }
      if success {
        Remember(pending[index].key);
        pending := RemovedAt(pending, index);
      } else {
        pending := pending[index := pending[index].(acceptHandle := 0)];
      }
      known := true;
    }

    method Ignore(c: Codec, key: Text) returns (known: bool)
      modifies this
      ensures State() == Next(c, old(State()), Event.Ignore(key))
      ensures known <==> IndexOf(old(pending), Open(key)) >= 0
    {
      var index := IndexOf(pending, Open(key));
      if index < 0 { return false; }
      Remember(key);
      pending := RemovedAt(pending, index);
      known := true;
    }

    method Remember(key: Text)
      modifies this`ignored
      ensures ignored == Remembered(old(ignored), key)
    {
      if key in ignored { return; }
      ignored := ignored + [key];
      if |ignored| > IGNORE_CAPACITY { ignored := ignored[1..]; }
    }

    method ClearPending(c: Codec)
      modifies this`pending
      ensures State() == Next(c, old(State()), Event.ClearPending)
    {
      pending := [];
    }
  }

  // ------------------------------------------------------------ counting admissions

  /** Everybody's admissions, or one sender's. */
  predicate Counts(who: Option<Text>, a: Admission) {
    who.None? || a.sender == who.value
  }

  function Limit(who: Option<Text>): nat {
    if who.None? then WINDOW_LIMIT else SENDER_WINDOW_LIMIT
  }

  /** Admissions in the half-open stretch from `from` to `to`. */
  function Within(log: seq<Admission>, from: int, to: int, who: Option<Text>): nat {
    if log == [] then 0
    else
      var a := log[|log| - 1];
      Within(log[..|log| - 1], from, to, who) + if from <= a.time < to && Counts(who, a) then 1 else 0
  }

  /** Admissions in the 30 seconds from `from` on. */
  function Stretch(log: seq<Admission>, from: int, who: Option<Text>): nat {
    Within(log, from, from + WINDOW, who)
  }

  lemma {:induction false} WithinAdds(log: seq<Admission>, a: Admission, from: int, to: int, who: Option<Text>)
    ensures Within(log + [a], from, to, who) ==
      Within(log, from, to, who) + if from <= a.time < to && Counts(who, a) then 1 else 0
  {
    assert (log + [a])[..|log|] == log;
  }

  /** Cutting a stretch in two, and widening it. */
  lemma {:induction false} WithinSplits(log: seq<Admission>, from: int, mid: int, to: int, who: Option<Text>)
    requires from <= mid <= to
    ensures Within(log, from, to, who) == Within(log, from, mid, who) + Within(log, mid, to, who)
  {
    if log != [] { WithinSplits(log[..|log| - 1], from, mid, to, who); }
  }

  lemma {:induction false} WithinGrows(log: seq<Admission>, from: int, to: int, wideFrom: int, wideTo: int, who: Option<Text>)
    requires wideFrom <= from <= to <= wideTo
    ensures Within(log, from, to, who) <= Within(log, wideFrom, wideTo, who)
  {
    WithinSplits(log, wideFrom, from, wideTo, who);
    WithinSplits(log, from, to, wideTo, who);
  }

  lemma {:induction false} NothingThere(log: seq<Admission>, from: int, to: int, who: Option<Text>)
    requires forall i | 0 <= i < |log| :: log[i].time < from
    ensures Within(log, from, to, who) == 0
  {
    if log != [] { NothingThere(log[..|log| - 1], from, to, who); }
  }

  // ------------------------------------------------------------ the invariant of the window

  /** Admissions lie before now and before the end of the current window. */
  ghost predicate Clocked(x: Inbox) {
    && -1 <= x.windowStart <= x.lastNow && 0 <= x.lastNow && (x.windowStart < 0 ==> x.log == [])
    && forall i | 0 <= i < |x.log| :: x.log[i].time <= x.lastNow && x.log[i].time < x.windowStart + WINDOW
  }

  function Counter(x: Inbox, who: Option<Text>): nat {
    if who.None? then x.windowCount else Admitted(x, who.value)
  }

  /** The counters count this window, the last 30 seconds before it saw at most one window's worth, any stretch at most two. */
  ghost predicate Counted(x: Inbox, who: Option<Text>) {
    && Counter(x, who) == Within(x.log, x.windowStart, x.windowStart + WINDOW, who) <= Limit(who)
    && (forall t | x.windowStart - WINDOW < t <= x.windowStart :: Within(x.log, t, x.windowStart, who) <= Limit(who))
    && forall t: int :: Stretch(x.log, t, who) <= 2 * Limit(who)
  }

  ghost predicate WindowOk(x: Inbox) {
    Clocked(x) && forall who: Option<Text> :: Counted(x, who)
  }

  lemma {:induction false} EmptyWithin(from: int, to: int, who: Option<Text>)
    ensures Within([], from, to, who) == 0
  {
  }

  lemma FreshWindowOk(keys: seq<Text>)
    ensures WindowOk(Fresh(keys))
  {
    var x := Fresh(keys);
    forall who: Option<Text> ensures Counted(x, who) {
      forall t: int ensures Stretch(x.log, t, who) <= 2 * Limit(who) { EmptyWithin(t, t + WINDOW, who); }
    }
  }

  lemma RollingKeepsCounts(x: Inbox, now: int, who: Option<Text>)
    requires Clocked(x) && Counted(x, who) && now >= x.lastNow
    ensures Counted(Rolled(x, now), who)
  {
    if x.windowStart < 0 {
      var y := Rolled(x, now);
      forall t | now - WINDOW < t <= now ensures Within(y.log, t, now, who) <= Limit(who) { EmptyWithin(t, now, who); }
      EmptyWithin(now, now + WINDOW, who);
    } else if now - x.windowStart >= WINDOW {
      NothingThere(x.log, now, now + WINDOW, who);
      var end := x.windowStart + WINDOW;
      forall t | now - WINDOW < t <= now ensures Within(x.log, t, now, who) <= Limit(who) {
        if t <= end {
          WithinSplits(x.log, t, end, now, who);
          NothingThere(x.log, end, now, who);
          WithinGrows(x.log, t, end, x.windowStart, end, who);
        } else {
          NothingThere(x.log, t, now, who);
        }
      }
    }
  }

  ghost predicate Admissible(x: Inbox, sender: Text) {
    Clocked(x) && x.windowStart >= 0 && x.lastNow < x.windowStart + WINDOW && HasRoom(x, sender)
  }

  /** At most one window's worth lies before the current window, and the current one still has room. */
  lemma EarlierStretchHasRoom(x: Inbox, who: Option<Text>, t: int)
    requires Counted(x, who) && Counter(x, who) < Limit(who)
    requires x.windowStart - WINDOW < t <= x.windowStart
    ensures Stretch(x.log, t, who) < 2 * Limit(who)
  {
    var w := x.windowStart;
    WithinSplits(x.log, t, w, t + WINDOW, who);
    WithinGrows(x.log, w, t + WINDOW, w, w + WINDOW, who);
  }

  lemma LaterStretchHasRoom(x: Inbox, who: Option<Text>, t: int)
    requires Clocked(x) && Counted(x, who) && Counter(x, who) < Limit(who)
    requires x.windowStart <= t < x.windowStart + WINDOW
    ensures Stretch(x.log, t, who) < 2 * Limit(who)
  {
    var w := x.windowStart;
    WithinSplits(x.log, t, w + WINDOW, t + WINDOW, who);
    NothingThere(x.log, w + WINDOW, t + WINDOW, who);
    WithinGrows(x.log, t, w + WINDOW, w, w + WINDOW, who);
  }

  lemma AdmittingKeepsStretch(x: Inbox, sender: Text, who: Option<Text>, t: int)
    requires Admissible(x, sender) && Counted(x, who)
    ensures Stretch(x.log + [Admission(x.lastNow, sender)], t, who) <= 2 * Limit(who)
  {
    var a := Admission(x.lastNow, sender);
    WithinAdds(x.log, a, t, t + WINDOW, who);
    assert Stretch(x.log, t, who) <= 2 * Limit(who);
    if t <= x.lastNow < t + WINDOW && Counts(who, a) {
      if t < x.windowStart { EarlierStretchHasRoom(x, who, t); } else { LaterStretchHasRoom(x, who, t); }
    }
  }

  lemma {:induction false} AdmittingCounts(x: Inbox, p: Invite, who: Option<Text>)
    requires Admissible(x, p.sender) && Counted(x, who)
    ensures var y, w := Admit(x, p), x.windowStart;
      && Counter(y, who) == Within(y.log, w, w + WINDOW, who) <= Limit(who)
      && forall t | w - WINDOW < t <= w :: Within(y.log, t, w, who) <= Limit(who)
  {
    var y, a, w := Admit(x, p), Admission(x.lastNow, p.sender), x.windowStart;
    WithinAdds(x.log, a, w, w + WINDOW, who);
    forall t | w - WINDOW < t <= w ensures Within(y.log, t, w, who) <= Limit(who) { WithinAdds(x.log, a, t, w, who); }
  }

  lemma AdmittingKeepsCounts(x: Inbox, p: Invite, who: Option<Text>)
    requires Admissible(x, p.sender) && Counted(x, who)
    ensures Counted(Admit(x, p), who)
  {
    AdmittingCounts(x, p, who);
    forall t: int ensures Stretch(Admit(x, p).log, t, who) <= 2 * Limit(who) { AdmittingKeepsStretch(x, p.sender, who, t); }
  }

  lemma RollingKeepsWindow(x: Inbox, now: int)
    requires WindowOk(x) && now >= x.lastNow
    ensures WindowOk(Rolled(x, now)) && 0 <= Rolled(x, now).windowStart <= now < Rolled(x, now).windowStart + WINDOW
  {
    forall who: Option<Text> ensures Counted(Rolled(x, now), who) {
      assert Counted(x, who);
      RollingKeepsCounts(x, now, who);
    }
  }

  lemma AdmittingKeepsWindow(x: Inbox, p: Invite)
    requires WindowOk(x) && Admissible(x, p.sender)
    ensures WindowOk(Admit(x, p))
  {
    forall who: Option<Text> ensures Counted(Admit(x, p), who) {
      assert Counted(x, who);
      AdmittingKeepsCounts(x, p, who);
    }
  }

  lemma SameWindow(x: Inbox, y: Inbox)
    requires WindowOk(x) && y == x.(pending := y.pending, ignored := y.ignored)
    ensures WindowOk(y)
  {
    forall who: Option<Text> ensures Counted(y, who) { assert Counted(x, who); }
  }

  lemma StepKeepsWindow(c: Codec, x: Inbox, e: Event)
    requires WindowOk(x)
    ensures WindowOk(Next(c, x, e))
  {
    if e.Add? && Candidate(c, x, e.sender, e.ticket).Some? {
      var p, now := Candidate(c, x, e.sender, e.ticket).value, EffectiveNow(x, e.clock);
      RollingKeepsWindow(x, now);
      if HasRoom(Rolled(x, now), p.sender) { AdmittingKeepsWindow(Rolled(x, now), p); }
    } else {
      SameWindow(x, Next(c, x, e));
    }
  }

  function Run(c: Codec, x: Inbox, events: seq<Event>): Inbox
    decreases |events|
  {
    if events == [] then x else Run(c, Next(c, x, events[0]), events[1..])
  }

  lemma {:induction false} RunKeepsWindow(c: Codec, x: Inbox, events: seq<Event>)
    requires WindowOk(x)
    ensures WindowOk(Run(c, x, events))
    decreases |events|
  {
    if events != [] {
      StepKeepsWindow(c, x, events[0]);
      RunKeepsWindow(c, Next(c, x, events[0]), events[1..]);
    }
  }

  /**
   For any clock, even one that runs backwards: any half-open 30000 ms of effective time sees at
   most 128 admissions, and at most 16 of one sender, however pending lines come and go.
   */
  lemma AdmissionsAreBounded(c: Codec, keys: seq<Text>, events: seq<Event>, t: int, sender: Text)
    ensures Within(Run(c, Fresh(keys), events).log, t, t + 30000, None) <= 128
    ensures Within(Run(c, Fresh(keys), events).log, t, t + 30000, Some(sender)) <= 16
  {
    FreshWindowOk(keys);
    RunKeepsWindow(c, Fresh(keys), events);
    var x := Run(c, Fresh(keys), events);
    assert Counted(x, None) && Counted(x, Some(sender));
    assert Stretch(x.log, t, None) <= 128 && Stretch(x.log, t, Some(sender)) <= 16;
  }

  // ------------------------------------------------------------ pending and remembered keys

  ghost predicate KeysOnce(keys: seq<Text>) {
    forall i, j | 0 <= i < j < |keys| :: keys[i] != keys[j]
  }

  ghost predicate PendingApart(pending: seq<Invite>) {
    forall i, j | 0 <= i < j < |pending| ::
      && pending[i].key != pending[j].key
      && (pending[i].acceptHandle != 0 ==> pending[i].acceptHandle != pending[j].acceptHandle)
  }

  ghost predicate SendersBounded(pending: seq<Invite>) {
    forall sender: Text :: OfSender(pending, sender) <= SENDER_CAPACITY
  }

  ghost predicate ListsOk(x: Inbox) {
    && |x.pending| <= CAPACITY && |x.ignored| <= IGNORE_CAPACITY
    && KeysOnce(x.ignored) && PendingApart(x.pending) && SendersBounded(x.pending)
    && forall i | 0 <= i < |x.pending| :: x.pending[i].key !in x.ignored
  }

  lemma RememberingKeepsOnce(ignored: seq<Text>, key: Text)
    requires KeysOnce(ignored) && |ignored| <= IGNORE_CAPACITY
    ensures KeysOnce(Remembered(ignored, key)) && |Remembered(ignored, key)| <= IGNORE_CAPACITY
    ensures forall k | k in Remembered(ignored, key) :: k in ignored || k == key
    ensures key in Remembered(ignored, key)
  {
    if key !in ignored {
      var more := ignored + [key];
      assert KeysOnce(more) && more[|ignored|] == key;
      if |more| > IGNORE_CAPACITY { assert more[1..][|ignored| - 1] == key; }
    }
  }

  lemma {:induction false} OfSenderConcat(a: seq<Invite>, b: seq<Invite>, sender: Text)
    ensures OfSender(a + b, sender) == OfSender(a, sender) + OfSender(b, sender)
  {
    if b == [] {
      assert a + b == a;
    } else {
      OfSenderConcat(a, b[..|b| - 1], sender);
      assert (a + b)[..|a + b| - 1] == a + b[..|b| - 1];
    }
  }

  /** Replacing or removing the entry at `i`, said about its neighbours. */
  lemma OfSenderAt(pending: seq<Invite>, i: nat, p: Invite, sender: Text)
    requires i < |pending| && p.sender == pending[i].sender
    ensures OfSender(pending[i := p], sender) == OfSender(pending, sender)
    ensures OfSender(RemovedAt(pending, i), sender) <= OfSender(pending, sender)
  {
    var front, back := pending[..i], pending[i + 1..];
    assert pending == front + ([pending[i]] + back) && pending[i := p] == front + ([p] + back);
    OfSenderConcat(front, [pending[i]] + back, sender);
    OfSenderConcat(front, [p] + back, sender);
    OfSenderConcat([pending[i]], back, sender);
    OfSenderConcat([p], back, sender);
    OfSenderConcat(front, back, sender);
    assert [p][..0] == [pending[i]][..0] == [];
  }

  lemma DismissingKeepsLists(x: Inbox, i: nat)
    requires ListsOk(x) && i < |x.pending|
    ensures ListsOk(Dismissed(x, i))
  {
    RememberingKeepsOnce(x.ignored, x.pending[i].key);
    forall sender: Text ensures OfSender(RemovedAt(x.pending, i), sender) <= SENDER_CAPACITY {
      OfSenderAt(x.pending, i, x.pending[i], sender);
    }
  }

  lemma ReplacingKeepsLists(x: Inbox, i: nat, handle: nat)
    requires ListsOk(x) && i < |x.pending|
    requires handle == 0 || forall j | 0 <= j < |x.pending| :: x.pending[j].acceptHandle != handle
    ensures ListsOk(x.(pending := x.pending[i := x.pending[i].(acceptHandle := handle)]))
  {
    var p := x.pending[i].(acceptHandle := handle);
    var changed := x.pending[i := p];
    forall sender: Text ensures OfSender(changed, sender) <= SENDER_CAPACITY {
      OfSenderAt(x.pending, i, p, sender);
    }
  }

  lemma AddingKeepsLists(c: Codec, x: Inbox, sender: Text, ticket: Text)
    requires ListsOk(x) && Candidate(c, x, sender, ticket).Some?
    ensures ListsOk(x.(pending := x.pending + [Candidate(c, x, sender, ticket).value]))
  {
    var p := Candidate(c, x, sender, ticket).value;
    var more := x.pending + [p];
    forall i | 0 <= i < |x.pending| ensures x.pending[i].key != p.key { assert !Matches(OfKey(p.key), x.pending[i]); }
    forall s: Text ensures OfSender(more, s) <= SENDER_CAPACITY { assert more[..|x.pending|] == x.pending; }
  }

  /** What is pending is never also remembered, whatever happens; and all bounds hold. */
  lemma StepKeepsLists(c: Codec, x: Inbox, e: Event)
    requires ListsOk(x)
    ensures ListsOk(Next(c, x, e))
  {
    match e
    case Add(sender, ticket, _) =>
      if Candidate(c, x, sender, ticket).Some? { AddingKeepsLists(c, x, sender, ticket); }
    case AcceptStarted(key, handle) =>
      if Starts(x, key, handle) {
        forall j | 0 <= j < |x.pending| ensures x.pending[j].acceptHandle != handle {
          assert !Matches(OfHandle(handle), x.pending[j]);
        }
        ReplacingKeepsLists(x, IndexOf(x.pending, Open(key)), handle);
      }
    case Complete(handle, success) =>
      var i := IndexOf(x.pending, OfHandle(handle));
      if handle != 0 && i >= 0 {
        if success { DismissingKeepsLists(x, i); } else { ReplacingKeepsLists(x, i, 0); }
      }
    case Ignore(key) =>
      if IndexOf(x.pending, Open(key)) >= 0 { DismissingKeepsLists(x, IndexOf(x.pending, Open(key))); }
    case ClearPending =>
      assert forall sender: Text :: OfSender([], sender) == 0;
  }

  lemma {:induction false} ImportingKeepsOnce(keys: seq<Text>)
    ensures KeysOnce(Imported(keys)) && |Imported(keys)| <= IGNORE_CAPACITY
  {
    if keys != [] {
      ImportingKeepsOnce(keys[..|keys| - 1]);
      RememberingKeepsOnce(Imported(keys[..|keys| - 1]), Lower(keys[|keys| - 1]));
    }
  }

  lemma {:induction false} RunKeepsLists(c: Codec, x: Inbox, events: seq<Event>)
    requires ListsOk(x)
    ensures ListsOk(Run(c, x, events))
    decreases |events|
  {
    if events != [] {
      StepKeepsLists(c, x, events[0]);
      RunKeepsLists(c, Next(c, x, events[0]), events[1..]);
    }
  }

  /** In every reachable state pending keys are disjoint from remembered keys, and both lists are within bounds. */
  lemma {:induction false} ReachableListsOk(c: Codec, keys: seq<Text>, events: seq<Event>)
    ensures var x := Run(c, Fresh(keys), events);
      && (forall i | 0 <= i < |x.pending| :: x.pending[i].key !in x.ignored)
      && |x.pending| <= 32 && |x.ignored| <= 256
      && (forall sender: Text :: OfSender(x.pending, sender) <= 4)
      && PendingApart(x.pending) && KeysOnce(x.ignored)
  {
    ImportingKeepsOnce(keys);
    assert forall sender: Text :: OfSender([], sender) == 0;
    RunKeepsLists(c, Fresh(keys), events);
  }
}
