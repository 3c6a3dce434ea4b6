/**
 One-to-one messages: the table (crates/lantern-core/src/store.rs:165-178, 686-733) and what the
 two ends do with it over a link that drops, repeats and reorders
 (crates/lantern-core/src/node/friends.rs:318-337, 573-590, 688-715).
 */
module Messages {
  import opened ByteStrings
  import opened Results
  import opened Ranking

  type Peer = Bytes

  const MAX_TEXT := 2048

  /** PRIMARY KEY (peer, outgoing, msg_id) */
  datatype Key = Key(peer: Peer, outgoing: bool, id: nat)

  datatype Message = Message(body: Bytes, sentAt: int, delivered: Option<int>, rowid: nat)

  type Rows = map<Key, Message>

  // ------------------------------------------------------------ statements

  function InsertOrIgnore(rows: Rows, key: Key, body: Bytes, sentAt: int, delivered: Option<int>): Rows {
    if key in rows then rows else rows[key := Message(body, sentAt, delivered, |rows|)]
  }

  function Out(rows: Rows, peer: Peer, id: nat, sentAt: int, body: Bytes): Rows {
    InsertOrIgnore(rows, Key(peer, true, id), body, sentAt, None)
  }

  function In(rows: Rows, peer: Peer, id: nat, sentAt: int, body: Bytes, now: int): Rows {
    InsertOrIgnore(rows, Key(peer, false, id), body, sentAt, Some(now))
  }

  predicate Awaits(rows: Rows, peer: Peer, id: nat) {
    Key(peer, true, id) in rows && rows[Key(peer, true, id)].delivered.None?
  }

  function Delivered(rows: Rows, peer: Peer, id: nat, now: int): Rows {
    if Awaits(rows, peer, id) then rows[Key(peer, true, id) := rows[Key(peer, true, id)].(delivered := Some(now))] else rows
  }

  datatype Pending = Pending(id: nat, body: Bytes, sentAt: int, rowid: nat)

  function Waiting(rows: Rows, peer: Peer): set<Pending> {
    set k | k in rows && k.peer == peer && Awaits(rows, peer, k.id) && k.outgoing
      :: Pending(k.id, rows[k].body, rows[k].sentAt, rows[k].rowid)
  }

  /** ORDER BY sent_at, rowid */
  predicate Before(a: Pending, b: Pending) {
    a.sentAt < b.sentAt || (a.sentAt == b.sentAt && a.rowid < b.rowid)
  }

  /** Row numbers are given out in turn and never twice. */
  ghost predicate Numbered(rows: Rows) {
    && (forall k | k in rows :: rows[k].rowid < |rows|)
    && forall j, k | j in rows && k in rows :: rows[j].rowid == rows[k].rowid ==> j == k
  }

  class Table {
    var rows: Rows

    constructor ()
      ensures rows == map[]
    {
      rows := map[];
    }

    method MessageOut(peer: Peer, id: nat, sentAt: int, body: Bytes)
      modifies this`rows
      ensures rows == Out(old(rows), peer, id, sentAt, body)
    {
      var key := Key(peer, true, id);
      if key !in rows { rows := rows[key := Message(body, sentAt, None, |rows|)]; }
    }

    /** False means it was already there: the sender retried because our ack was lost. */
    method MessageIn(peer: Peer, id: nat, sentAt: int, body: Bytes, now: int) returns (isNew: bool)
      modifies this`rows
      ensures rows == In(old(rows), peer, id, sentAt, body, now) && isNew == (Key(peer, false, id) !in old(rows))
    {
      var key := Key(peer, false, id);
      isNew := key !in rows;
      if isNew { rows := rows[key := Message(body, sentAt, Some(now), |rows|)]; }
    }

    method MessageDelivered(peer: Peer, id: nat, now: int) returns (isNew: bool)
      modifies this`rows
      ensures rows == Delivered(old(rows), peer, id, now) && isNew == Awaits(old(rows), peer, id)
    {
      var key := Key(peer, true, id);
      isNew := key in rows && rows[key].delivered.None?;
      if isNew { rows := rows[key := rows[key].(delivered := Some(now))]; }
    }

    /** Everything still waiting for an ack, oldest first. */
    method Outbox(peer: Peer) returns (out: seq<Pending>)
      requires Numbered(rows)
      ensures Ascending(out, Before) && Elements(out) == Waiting(rows, peer)
      ensures forall i, j | 0 <= i < j < |out| ::
        out[i].sentAt < out[j].sentAt || (out[i].sentAt == out[j].sentAt && out[i].rowid < out[j].rowid)
    {
      var found := Scan(Waiting(rows, peer));
      out := Sort(found, Before);
      WaitingIsTotal(rows, peer);
      SortAscending(found, Before);
      SameElements(found, out);
    }
  }

  /** The selected rows, in whatever order the table is scanned. */
  method Scan(all: set<Pending>) returns (found: seq<Pending>)
    ensures Elements(found) == all && Distinct(found)
  {
    var rest := all;
    found := [];
    while rest != {}
      invariant rest <= all && Elements(found) == all - rest && Distinct(found)
      decreases |rest|
    {
      var next :| next in rest;
      Appended(found, next);
      found := found + [next];
      rest := rest - {next};
    }
  }

  lemma Appended(found: seq<Pending>, next: Pending)
    requires Distinct(found) && next !in Elements(found)
    ensures Distinct(found + [next]) && Elements(found + [next]) == Elements(found) + {next}
  {
    assert (found + [next])[|found|] == next;
    forall i, j | 0 <= i < j < |found + [next]| ensures (found + [next])[i] != (found + [next])[j] {
      assert (found + [next])[i] in Elements(found);
    }
  }

  lemma WaitingIsTotal(rows: Rows, peer: Peer)
    requires Numbered(rows)
    ensures StrictOrder(Before) && TotalOn(Before, Waiting(rows, peer))
  {
    forall x, y | x in Waiting(rows, peer) && y in Waiting(rows, peer) && x != y
      ensures Before(x, y) || Before(y, x)
    {
      assert x.rowid != y.rowid;
    }
  }

  lemma InsertionNumbers(rows: Rows, key: Key, body: Bytes, sentAt: int, delivered: Option<int>)
    requires Numbered(rows)
    ensures Numbered(InsertOrIgnore(rows, key, body, sentAt, delivered))
  {
    if key !in rows {
      assert |rows[key := Message(body, sentAt, delivered, |rows|)]| == |rows| + 1;
    }
  }

  lemma DeliveryNumbers(rows: Rows, peer: Peer, id: nat, now: int)
    requires Numbered(rows)
    ensures Numbered(Delivered(rows, peer, id, now))
  {
    var after := Delivered(rows, peer, id, now);
    assert after.Keys == rows.Keys;
    assert |after| == |after.Keys| == |rows.Keys| == |rows|;
  }

  // ------------------------------------------------------------ two ends and a network

  /** A packet on the authenticated link between two nodes. */
  datatype Packet =
    | Text(from: Peer, to: Peer, id: nat, sentAt: int, body: Bytes)
    | Ack(from: Peer, to: Peer, id: nat)

  /** A text raised at one end, or a delivery reported at the other. */
  datatype Notice = Notice(at: Peer, peer: Peer, id: nat, body: Bytes)

  /** Everything ever sent stays in `sent`: a delivery takes any of it, as often and as late as the network likes. */
  datatype Net = Net(tables: map<Peer, Rows>, sent: set<Packet>, raised: seq<Notice>, reported: seq<Notice>)

  const QUIET: Net := Net(map[], {}, [], [])

  function RowsAt(n: Net, node: Peer): Rows {
    if node in n.tables then n.tables[node] else map[]
  }

  /** `linked`: there was a connection to send on; `failed`: the store failed, which is only logged. */
  datatype Step =
    | Send(from: Peer, to: Peer, id: nat, sentAt: int, body: Bytes, linked: bool, failed: bool)
    | Resend(from: Peer, to: Peer)
    | Deliver(packet: Packet, failed: bool, now: int)

  /** No id has been recorded or sent before, and a packet is delivered only if it was sent. */
  ghost predicate Legal(n: Net, s: Step) {
    match s
    case Send(from, to, id, _, body, _, _) => |body| > MAX_TEXT || body == [] || Fresh(n, from, to, id)
    case Resend(_, _) => true
    case Deliver(packet, _, _) => packet in n.sent
  }

  ghost predicate Fresh(n: Net, from: Peer, to: Peer, id: nat) {
    && Key(to, true, id) !in RowsAt(n, from)
    && forall p | p in n.sent :: p.Text? ==> p.from != from || p.to != to || p.id != id
  }

  /** What is recorded is sent again; a text whose record failed is not. */
  function Resent(rows: Rows, from: Peer, to: Peer): set<Packet> {
    set m | m in Waiting(rows, to) :: Text(from, to, m.id, m.sentAt, m.body)
  }

  function AfterText(n: Net, p: Packet, failed: bool, now: int): Net
    requires p.Text?
  {
    var ack := Ack(p.to, p.from, p.id);
    var rows := RowsAt(n, p.to);
    if |p.body| > MAX_TEXT then n.(sent := n.sent + {ack})
    else if failed then n
    else
      var isNew := Key(p.from, false, p.id) !in rows;
      n.(tables := n.tables[p.to := In(rows, p.from, p.id, p.sentAt, p.body, now)], sent := n.sent + {ack},
         raised := if isNew then n.raised + [Notice(p.to, p.from, p.id, p.body)] else n.raised)
  }

  function AfterAck(n: Net, p: Packet, failed: bool, now: int): Net
    requires p.Ack?
  {
    var rows := RowsAt(n, p.to);
    if failed || !Awaits(rows, p.from, p.id) then n
    else
      n.(tables := n.tables[p.to := Delivered(rows, p.from, p.id, now)],
         reported := n.reported + [Notice(p.to, p.from, p.id, rows[Key(p.from, true, p.id)].body)])
  }

  function Next(n: Net, s: Step): Net {
    match s
    case Send(from, to, id, sentAt, body, linked, failed) =>
      if |body| > MAX_TEXT || body == [] then n
      else
        n.(tables := if failed then n.tables else n.tables[from := Out(RowsAt(n, from), to, id, sentAt, body)],
           sent := if linked then n.sent + {Text(from, to, id, sentAt, body)} else n.sent)
    case Resend(from, to) => n.(sent := n.sent + Resent(RowsAt(n, from), from, to))
    case Deliver(packet, failed, now) =>
      if packet.Text? then AfterText(n, packet, failed, now) else AfterAck(n, packet, failed, now)
  }

  // ------------------------------------------------------------ the invariant

  predicate Has(n: Net, node: Peer, key: Key, body: Bytes) {
    key in RowsAt(n, node) && RowsAt(n, node)[key].body == body
  }

  /** Whether a text of this id, time and body is the one the sender has recorded, if it has recorded any. */
  predicate AsRecorded(n: Net, p: Packet)
    requires p.Text?
  {
    Key(p.to, true, p.id) in RowsAt(n, p.from) ==>
      var row := RowsAt(n, p.from)[Key(p.to, true, p.id)];
      row.body == p.body && row.sentAt == p.sentAt
  }

  /** One text per id, the recorded one if it was recorded; acks only of what is stored. */
  ghost predicate SentOk(n: Net) {
    && (forall p | p in n.sent && p.Text? :: |p.body| <= MAX_TEXT && AsRecorded(n, p))
    && (forall p, q | p in n.sent && q in n.sent && p.Text? && q.Text? ::
          p.from == q.from && p.to == q.to && p.id == q.id ==> p == q)
    && (forall p | p in n.sent && p.Ack? :: Key(p.to, false, p.id) in RowsAt(n, p.from))
  }

  /** What one end has received the other has sent, and what one end knows delivered the other has. */
  ghost predicate Mirrored(n: Net) {
    && (forall a, b, id | Key(a, false, id) in RowsAt(n, b) ::
          var row := RowsAt(n, b)[Key(a, false, id)];
          Text(a, b, id, row.sentAt, row.body) in n.sent)
    && (forall a, b, id | Key(b, true, id) in RowsAt(n, a) && RowsAt(n, a)[Key(b, true, id)].delivered.Some? ::
          Key(a, false, id) in RowsAt(n, b))
  }

  ghost predicate ShortOutgoing(n: Net) {
    forall a, b, id | Key(b, true, id) in RowsAt(n, a) :: |RowsAt(n, a)[Key(b, true, id)].body| <= MAX_TEXT
  }

  predicate SameMessage(x: Notice, y: Notice) {
    x.at == y.at && x.peer == y.peer && x.id == y.id
  }

  ghost predicate Once(notices: seq<Notice>) {
    forall i, j | 0 <= i < j < |notices| :: !SameMessage(notices[i], notices[j])
  }

  /** Raised is what is stored, reported is what is known delivered. */
  ghost predicate NoticesOk(n: Net) {
    && Once(n.raised) && Once(n.reported)
    && (forall i | 0 <= i < |n.raised| ::
          Has(n, n.raised[i].at, Key(n.raised[i].peer, false, n.raised[i].id), n.raised[i].body))
    && (forall i | 0 <= i < |n.reported| ::
          var r := n.reported[i];
          Has(n, r.at, Key(r.peer, true, r.id), r.body) && !Awaits(RowsAt(n, r.at), r.peer, r.id))
    && (forall a, b, id | Key(a, false, id) in RowsAt(n, b) ::
          Notice(b, a, id, RowsAt(n, b)[Key(a, false, id)].body) in n.raised)
  }

  ghost predicate Inv(n: Net) {
    SentOk(n) && Mirrored(n) && ShortOutgoing(n) && NoticesOk(n)
  }

  /** Rows stay, with their text. */
  lemma RowsStay(n: Net, s: Step, node: Peer, key: Key)
    requires Legal(n, s) && key in RowsAt(n, node)
    ensures Has(Next(n, s), node, key, RowsAt(n, node)[key].body)
    ensures RowsAt(Next(n, s), node)[key].sentAt == RowsAt(n, node)[key].sentAt
    ensures RowsAt(n, node)[key].delivered.Some? ==> RowsAt(Next(n, s), node)[key].delivered.Some?
  {
  }

  lemma RecordedKept(n: Net, s: Step, p: Packet)
    requires Inv(n) && Legal(n, s) && p in Next(n, s).sent && p.Text?
    ensures |p.body| <= MAX_TEXT && AsRecorded(Next(n, s), p)
  {
    var key := Key(p.to, true, p.id);
    if key in RowsAt(n, p.from) {
      RowsStay(n, s, p.from, key);
    } else if key in RowsAt(Next(n, s), p.from) {
      OnlySendingRecords(n, s, p.from, p.to, p.id);
    }
  }

  /** An outgoing row is new only when it is sent, and then as it is sent. */
  lemma OnlySendingRecords(n: Net, s: Step, from: Peer, to: Peer, id: nat)
    requires Legal(n, s) && Key(to, true, id) !in RowsAt(n, from) && Key(to, true, id) in RowsAt(Next(n, s), from)
    ensures s.Send? && s.from == from && s.to == to && s.id == id
    ensures var row := RowsAt(Next(n, s), from)[Key(to, true, id)];
      row.body == s.body && row.sentAt == s.sentAt
  {
  }

  lemma OneTextKept(n: Net, s: Step, p: Packet, q: Packet)
    requires Inv(n) && Legal(n, s) && p in Next(n, s).sent && q in Next(n, s).sent && p.Text? && q.Text?
    requires p.from == q.from && p.to == q.to && p.id == q.id
    ensures p == q
  {
  }

  lemma SentKept(n: Net, s: Step)
    requires Inv(n) && Legal(n, s)
    ensures SentOk(Next(n, s))
  {
    var next := Next(n, s);
    forall p | p in next.sent && p.Text? ensures |p.body| <= MAX_TEXT && AsRecorded(next, p) { RecordedKept(n, s, p); }
    forall p, q | p in next.sent && q in next.sent && p.Text? && q.Text?
      ensures p.from == q.from && p.to == q.to && p.id == q.id ==> p == q
    {
      if p.from == q.from && p.to == q.to && p.id == q.id { OneTextKept(n, s, p, q); }
    }
    forall p | p in next.sent && p.Ack? ensures Key(p.to, false, p.id) in RowsAt(next, p.from) {
      if p in n.sent { RowsStay(n, s, p.from, Key(p.to, false, p.id)); }
    }
  }

  lemma ReceivedKept(n: Net, s: Step, a: Peer, b: Peer, id: nat)
    requires Inv(n) && Legal(n, s) && Key(a, false, id) in RowsAt(Next(n, s), b)
    ensures var row := RowsAt(Next(n, s), b)[Key(a, false, id)];
      Text(a, b, id, row.sentAt, row.body) in Next(n, s).sent
  {
    if Key(a, false, id) in RowsAt(n, b) { RowsStay(n, s, b, Key(a, false, id)); }
  }

  lemma DeliveredKept(n: Net, s: Step, a: Peer, b: Peer, id: nat)
    requires Inv(n) && Legal(n, s) && Key(b, true, id) in RowsAt(Next(n, s), a)
    requires RowsAt(Next(n, s), a)[Key(b, true, id)].delivered.Some?
    ensures Key(a, false, id) in RowsAt(Next(n, s), b)
  {
    if Key(a, false, id) in RowsAt(n, b) { RowsStay(n, s, b, Key(a, false, id)); }
  }

  lemma MirroredKept(n: Net, s: Step)
    requires Inv(n) && Legal(n, s)
    ensures Mirrored(Next(n, s))
  {
    var next := Next(n, s);
    forall a, b, id | Key(a, false, id) in RowsAt(next, b)
      ensures var row := RowsAt(next, b)[Key(a, false, id)]; Text(a, b, id, row.sentAt, row.body) in next.sent
    {
      ReceivedKept(n, s, a, b, id);
    }
    forall a, b, id | Key(b, true, id) in RowsAt(next, a) && RowsAt(next, a)[Key(b, true, id)].delivered.Some?
      ensures Key(a, false, id) in RowsAt(next, b)
    {
      DeliveredKept(n, s, a, b, id);
    }
  }

  lemma ShortKept(n: Net, s: Step)
    requires ShortOutgoing(n) && Legal(n, s)
    ensures ShortOutgoing(Next(n, s))
  {
    var next := Next(n, s);
    forall a, b, id | Key(b, true, id) in RowsAt(next, a) ensures |RowsAt(next, a)[Key(b, true, id)].body| <= MAX_TEXT {
      if Key(b, true, id) in RowsAt(n, a) { RowsStay(n, s, a, Key(b, true, id)); }
    }
  }

  lemma OneMore(notices: seq<Notice>, x: Notice)
    requires Once(notices) && forall i | 0 <= i < |notices| :: !SameMessage(notices[i], x)
    ensures Once(notices + [x]) && (notices + [x])[|notices|] == x
    ensures forall y | y in notices :: y in notices + [x]
  {
  }

  lemma RaisedIsStored(n: Net, s: Step)
    requires Inv(n) && Legal(n, s)
    ensures var next := Next(n, s);
      && Once(next.raised)
      && forall i | 0 <= i < |next.raised| ::
           Has(next, next.raised[i].at, Key(next.raised[i].peer, false, next.raised[i].id), next.raised[i].body)
  {
    var next := Next(n, s);
    if next.raised != n.raised {
      var p := s.packet;
      OneMore(n.raised, Notice(p.to, p.from, p.id, p.body));
    }
    forall i | 0 <= i < |n.raised|
      ensures Has(next, n.raised[i].at, Key(n.raised[i].peer, false, n.raised[i].id), n.raised[i].body)
    {
      RowsStay(n, s, n.raised[i].at, Key(n.raised[i].peer, false, n.raised[i].id));
    }
  }

  lemma StoredIsRaised(n: Net, s: Step, a: Peer, b: Peer, id: nat)
    requires Inv(n) && Legal(n, s) && Key(a, false, id) in RowsAt(Next(n, s), b)
    ensures Notice(b, a, id, RowsAt(Next(n, s), b)[Key(a, false, id)].body) in Next(n, s).raised
  {
    if Key(a, false, id) in RowsAt(n, b) { RowsStay(n, s, b, Key(a, false, id)); }
  }

  lemma ReportedKept(n: Net, s: Step)
    requires Inv(n) && Legal(n, s)
    ensures var next := Next(n, s);
      && Once(next.reported)
      && forall i | 0 <= i < |next.reported| ::
           var r := next.reported[i];
           Has(next, r.at, Key(r.peer, true, r.id), r.body) && !Awaits(RowsAt(next, r.at), r.peer, r.id)
  {
    var next := Next(n, s);
    if next.reported != n.reported {
      var p := s.packet;
      OneMore(n.reported, Notice(p.to, p.from, p.id, RowsAt(n, p.to)[Key(p.from, true, p.id)].body));
    }
    forall i | 0 <= i < |n.reported|
      ensures var r := n.reported[i];
        Has(next, r.at, Key(r.peer, true, r.id), r.body) && !Awaits(RowsAt(next, r.at), r.peer, r.id)
    {
      RowsStay(n, s, n.reported[i].at, Key(n.reported[i].peer, true, n.reported[i].id));
    }
  }

  lemma StepKeepsInv(n: Net, s: Step)
    requires Inv(n) && Legal(n, s)
    ensures Inv(Next(n, s))
  {
    SentKept(n, s);
    MirroredKept(n, s);
    ShortKept(n, s);
    RaisedIsStored(n, s);
    forall a, b, id | Key(a, false, id) in RowsAt(Next(n, s), b)
      ensures Notice(b, a, id, RowsAt(Next(n, s), b)[Key(a, false, id)].body) in Next(n, s).raised
    {
      StoredIsRaised(n, s, a, b, id);
    }
    ReportedKept(n, s);
  }

  // ------------------------------------------------------------ runs

  ghost predicate IsRun(n: Net, steps: seq<Step>)
    decreases |steps|
  {
    steps == [] || (Legal(n, steps[0]) && IsRun(Next(n, steps[0]), steps[1..]))
  }

  function Run(n: Net, steps: seq<Step>): Net
    decreases |steps|
  {
    if steps == [] then n else Run(Next(n, steps[0]), steps[1..])
  }

  lemma {:induction false} RunKeepsInv(n: Net, steps: seq<Step>)
    requires Inv(n) && IsRun(n, steps)
    ensures Inv(Run(n, steps))
    decreases |steps|
  {
    if steps != [] {
      StepKeepsInv(n, steps[0]);
      RunKeepsInv(Next(n, steps[0]), steps[1..]);
    }
  }

  lemma StepKeepsNumbers(n: Net, s: Step, node: Peer)
    requires Numbered(RowsAt(n, node)) && Legal(n, s)
    ensures Numbered(RowsAt(Next(n, s), node))
  {
    var rows := RowsAt(n, node);
    match s
    case Send(from, to, id, sentAt, body, _, _) => InsertionNumbers(rows, Key(to, true, id), body, sentAt, None);
    case Resend(_, _) =>
    case Deliver(Text(from, _, id, sentAt, body), _, now) =>
      InsertionNumbers(rows, Key(from, false, id), body, sentAt, Some(now));
    case Deliver(Ack(from, _, id), _, now) => DeliveryNumbers(rows, from, id, now);
  }

  /** In every run each table numbers its rows, so what `Outbox` asks of the table always holds. */
  lemma {:induction false} RunKeepsNumbers(n: Net, steps: seq<Step>, node: Peer)
    requires Numbered(RowsAt(n, node)) && IsRun(n, steps)
    ensures Numbered(RowsAt(Run(n, steps), node))
    decreases |steps|
  {
    if steps != [] {
      StepKeepsNumbers(n, steps[0], node);
      RunKeepsNumbers(Next(n, steps[0]), steps[1..], node);
    }
  }

  lemma {:induction false} ReachableTablesAreNumbered(steps: seq<Step>, node: Peer)
    requires IsRun(QUIET, steps)
    ensures Numbered(RowsAt(Run(QUIET, steps), node))
  {
    RunKeepsNumbers(QUIET, steps, node);
  }

  /** Whatever the network does, a message is raised at most once and its delivery reported at most once. */
  lemma {:induction false} RaisedAndReportedOnce(steps: seq<Step>)
    requires IsRun(QUIET, steps)
    ensures Once(Run(QUIET, steps).raised) && Once(Run(QUIET, steps).reported)
  {
    RunKeepsInv(QUIET, steps);
  }

  /** A sent message that no longer waits in the outbox is stored, and has been raised, at the receiver, word for word. */
  lemma {:induction false} LeftOutboxIsStored(steps: seq<Step>, from: Peer, to: Peer, id: nat)
    requires IsRun(QUIET, steps)
    requires Key(to, true, id) in RowsAt(Run(QUIET, steps), from) && !Awaits(RowsAt(Run(QUIET, steps), from), to, id)
    ensures var n := Run(QUIET, steps);
      var body := RowsAt(n, from)[Key(to, true, id)].body;
      Has(n, to, Key(from, false, id), body) && Notice(to, from, id, body) in n.raised
  {
    RunKeepsInv(QUIET, steps);
    DeliveredIsStored(Run(QUIET, steps), from, to, id);
  }

  predicate WasSent(n: Net, x: Notice) {
    exists p | p in n.sent :: p.Text? && p == Text(x.peer, x.at, x.id, p.sentAt, x.body)
  }

  /** Nothing is raised that was not sent, word for word, and nothing is reported delivered that was not raised. */
  lemma {:induction false} NoticesAreTrue(steps: seq<Step>, x: Notice)
    requires IsRun(QUIET, steps)
    ensures var n := Run(QUIET, steps);
      && (x in n.raised ==> WasSent(n, x))
      && (x in n.reported ==> Notice(x.peer, x.at, x.id, x.body) in n.raised)
  {
    RunKeepsInv(QUIET, steps);
    var n := Run(QUIET, steps);
    if x in n.raised { RaisedWasSent(n, x); }
    if x in n.reported { ReportedWasRaised(n, x); }
  }

  lemma RaisedWasSent(n: Net, x: Notice)
    requires Inv(n) && x in n.raised
    ensures WasSent(n, x)
  {
    var i :| 0 <= i < |n.raised| && n.raised[i] == x;
    var row := RowsAt(n, x.at)[Key(x.peer, false, x.id)];
    assert Text(x.peer, x.at, x.id, row.sentAt, x.body) in n.sent;
  }

  /** What is delivered at the sender is stored, word for word, and was raised at the receiver. */
  lemma DeliveredIsStored(n: Net, from: Peer, to: Peer, id: nat)
    requires Inv(n) && Key(to, true, id) in RowsAt(n, from) && !Awaits(RowsAt(n, from), to, id)
    ensures var body := RowsAt(n, from)[Key(to, true, id)].body;
      Has(n, to, Key(from, false, id), body) && Notice(to, from, id, body) in n.raised
  {
    var row := RowsAt(n, to)[Key(from, false, id)];
    assert AsRecorded(n, Text(from, to, id, row.sentAt, row.body));
  }

  lemma ReportedWasRaised(n: Net, x: Notice)
    requires Inv(n) && x in n.reported
    ensures Notice(x.peer, x.at, x.id, x.body) in n.raised
  {
    var i :| 0 <= i < |n.reported| && n.reported[i] == x;
    DeliveredIsStored(n, x.at, x.peer, x.id);
  }

  /** Sending and repeating until an ack arrives gets the message through: one delivery each way is enough. */
  lemma {:induction false} OneDeliveryEachWaySuffices(n: Net, from: Peer, to: Peer, id: nat, m: Pending, now: int)
    requires Inv(n) && m in Waiting(RowsAt(n, from), to) && m.id == id
    ensures var text, ack := Text(from, to, id, m.sentAt, m.body), Ack(to, from, id);
      var steps := [Resend(from, to), Deliver(text, false, now), Deliver(ack, false, now)];
      IsRun(n, steps) && !Awaits(RowsAt(Run(n, steps), from), to, id)
  {
    var text, ack := Text(from, to, id, m.sentAt, m.body), Ack(to, from, id);
    var s1, s2, s3 := Resend(from, to), Deliver(text, false, now), Deliver(ack, false, now);
    var n1 := Next(n, s1);
    StepKeepsInv(n, s1);
    assert text in n1.sent;
    var n2 := Next(n1, s2);
    assert ack in n2.sent;
    var steps := [s1, s2, s3];
    assert steps[1..] == [s2, s3] && [s2, s3][1..] == [s3] && [s3][1..] == [];
    assert Run(n, steps) == Run(n1, [s2, s3]) == Run(n2, [s3]) == Run(Next(n2, s3), []);
    assert IsRun(Next(n2, s3), []) && IsRun(n2, [s3]) && IsRun(n1, [s2, s3]);
  }
}
