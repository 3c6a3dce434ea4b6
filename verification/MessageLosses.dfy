/**
 No recorded message is lost (crates/lantern-core/src/node/friends.rs:318-337, 573-590, 688-715 with
 crates/lantern-core/src/store.rs:686-733): it waits in the outbox, as it was sent, until it is
 stored and raised at the other end and reported at this one.
 */
module MessageLosses {
  import opened ByteStrings
  import opened Results
  import opened Ranking
  import opened Messages

  /** The outbox holds exactly the recorded messages without an ack. */
  lemma WaitingExactly(rows: Rows, peer: Peer, m: Pending)
    ensures m in Waiting(rows, peer) <==>
      Key(peer, true, m.id) in rows && rows[Key(peer, true, m.id)] == Message(m.body, m.sentAt, None, m.rowid)
  {
    if Key(peer, true, m.id) in rows { assert Key(peer, true, m.id).peer == peer; }
  }

  /** The sender's record of a message, delivered or not. */
  predicate Recorded(n: Net, from: Peer, to: Peer, id: nat, sentAt: int, body: Bytes) {
    var rows, key := RowsAt(n, from), Key(to, true, id);
    key in rows && rows[key].sentAt == sentAt && rows[key].body == body
  }

  /** A text of one to 2048 bytes is recorded, unless the store fails, and sent, if there is a link; any other does nothing. */
  lemma SendingRecords(n: Net, from: Peer, to: Peer, id: nat, sentAt: int, body: Bytes, linked: bool, failed: bool)
    requires Legal(n, Send(from, to, id, sentAt, body, linked, failed))
    ensures var next := Next(n, Send(from, to, id, sentAt, body, linked, failed));
      if 1 <= |body| <= 2048 then
        && (!failed ==> Recorded(next, from, to, id, sentAt, body) && Awaits(RowsAt(next, from), to, id))
        && (failed ==> next.tables == n.tables)
        && next.sent == n.sent + (if linked then {Text(from, to, id, sentAt, body)} else {})
        && next.raised == n.raised && next.reported == n.reported
      else next == n
  {
  }

  lemma {:induction false} RecordsStay(n: Net, steps: seq<Step>, from: Peer, to: Peer, id: nat, sentAt: int, body: Bytes)
    requires IsRun(n, steps) && Recorded(n, from, to, id, sentAt, body)
    ensures Recorded(Run(n, steps), from, to, id, sentAt, body)
    decreases |steps|
  {
    if steps != [] {
      RowsStay(n, steps[0], from, Key(to, true, id));
      RecordsStay(Next(n, steps[0]), steps[1..], from, to, id, sentAt, body);
    }
  }

  /** What one end knows delivered it has reported. */
  ghost predicate DeliveredIsReported(n: Net) {
    forall a, b, id | Key(b, true, id) in RowsAt(n, a) && RowsAt(n, a)[Key(b, true, id)].delivered.Some? ::
      Notice(a, b, id, RowsAt(n, a)[Key(b, true, id)].body) in n.reported
  }

  lemma ReportKept(n: Net, s: Step, a: Peer, b: Peer, id: nat)
    requires Legal(n, s) && DeliveredIsReported(n)
    requires Key(b, true, id) in RowsAt(Next(n, s), a) && RowsAt(Next(n, s), a)[Key(b, true, id)].delivered.Some?
    ensures Notice(a, b, id, RowsAt(Next(n, s), a)[Key(b, true, id)].body) in Next(n, s).reported
  {
    if Key(b, true, id) in RowsAt(n, a) { RowsStay(n, s, a, Key(b, true, id)); }
  }

  lemma {:induction false} RunReports(n: Net, steps: seq<Step>)
    requires IsRun(n, steps) && DeliveredIsReported(n)
    ensures DeliveredIsReported(Run(n, steps))
    decreases |steps|
  {
    if steps != [] {
      var next := Next(n, steps[0]);
      forall a, b, id | Key(b, true, id) in RowsAt(next, a) && RowsAt(next, a)[Key(b, true, id)].delivered.Some?
        ensures Notice(a, b, id, RowsAt(next, a)[Key(b, true, id)].body) in next.reported
      {
        ReportKept(n, steps[0], a, b, id);
      }
      RunReports(next, steps[1..]);
    }
  }

  /** It waits in the outbox as it was sent. */
  ghost predicate StillWaits(n: Net, from: Peer, to: Peer, id: nat, sentAt: int, body: Bytes) {
    exists m | m in Waiting(RowsAt(n, from), to) :: m.id == id && m.sentAt == sentAt && m.body == body
  }

  /** It is stored and has been raised at the receiver, word for word, and reported at the sender. */
  ghost predicate Arrived(n: Net, from: Peer, to: Peer, id: nat, body: Bytes) {
    && Has(n, to, Key(from, false, id), body)
    && Notice(to, from, id, body) in n.raised && Notice(from, to, id, body) in n.reported
  }

  lemma RecordedWaitsOrArrived(n: Net, from: Peer, to: Peer, id: nat, sentAt: int, body: Bytes)
    requires Inv(n) && DeliveredIsReported(n) && Recorded(n, from, to, id, sentAt, body)
    ensures Awaits(RowsAt(n, from), to, id) ==> StillWaits(n, from, to, id, sentAt, body)
    ensures !Awaits(RowsAt(n, from), to, id) ==> Arrived(n, from, to, id, body)
  {
    var row := RowsAt(n, from)[Key(to, true, id)];
    if Awaits(RowsAt(n, from), to, id) {
      WaitingExactly(RowsAt(n, from), to, Pending(id, body, sentAt, row.rowid));
    } else {
      DeliveredIsStored(n, from, to, id);
    }
  }

  /**
   In every run: a message whose record did not fail waits in the outbox ever after, until it is
   stored and raised at the receiver and reported at the sender.
   */
  lemma {:induction false} NoMessageIsLost(before: seq<Step>, from: Peer, to: Peer, id: nat, sentAt: int, body: Bytes,
    linked: bool, later: seq<Step>)
    requires IsRun(QUIET, before) && 1 <= |body| <= 2048
    requires Legal(Run(QUIET, before), Send(from, to, id, sentAt, body, linked, false))
    requires IsRun(Next(Run(QUIET, before), Send(from, to, id, sentAt, body, linked, false)), later)
    ensures var n := Run(Next(Run(QUIET, before), Send(from, to, id, sentAt, body, linked, false)), later);
      StillWaits(n, from, to, id, sentAt, body) || Arrived(n, from, to, id, body)
  {
    var n, s := Run(QUIET, before), Send(from, to, id, sentAt, body, linked, false);
    RunKeepsInv(QUIET, before);
    RunReports(QUIET, before);
    SendingRecords(n, from, to, id, sentAt, body, linked, false);
    StepKeepsInv(n, s);
    OneStepReports(n, s);
    RunKeepsInv(Next(n, s), later);
    RunReports(Next(n, s), later);
    RecordsStay(Next(n, s), later, from, to, id, sentAt, body);
    RecordedWaitsOrArrived(Run(Next(n, s), later), from, to, id, sentAt, body);
  }

  lemma {:induction false} OneStepReports(n: Net, s: Step)
    requires Legal(n, s) && DeliveredIsReported(n)
    ensures DeliveredIsReported(Next(n, s))
  {
    assert [s][1..] == [] && IsRun(Next(n, s), []) && Run(Next(n, s), []) == Next(n, s);
    RunReports(n, [s]);
  }
}
