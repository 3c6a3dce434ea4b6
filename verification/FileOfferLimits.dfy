/**
 What every reachable list of offers keeps (src/XivLantern.Core/FileOffers.cs:22-123): the
 bounds, distinct handles and files, and that a withdrawn offer never runs again.
 */
module FileOfferLimits {
  import opened HexText
  import opened Results
  import opened Utf8
  import opened FileOffers

  /** A display name that is no path: one visible, named component of either platform. */
  predicate IsPlainName(name: Text) {
    && !IsBlank(name) && name != [DOT] && name != [DOT, DOT]
    && forall i | 0 <= i < |name| :: name[i] != SLASH && name[i] != BACKSLASH && !IsControl(name[i])
  }

  predicate RowOk(o: FileOffer) {
    && o.handle != 0 && IsLowerHash(o.peer) && IsLowerHash(o.hash)
    && o.done <= o.size <= MAX_BYTES && IsPlainName(o.name)
    && (o.withdrawn ==> o.state.Canceling? || o.state.Saved?)
  }

  predicate Apart(a: FileOffer, b: FileOffer) {
    a.handle != b.handle && (a.room, a.peer, a.hash) != (b.room, b.peer, b.hash)
  }

  predicate AllApart(offers: seq<FileOffer>) {
    forall i, j | 0 <= i < j < |offers| :: Apart(offers[i], offers[j])
  }

  predicate AllOk(offers: seq<FileOffer>) {
    forall i | 0 <= i < |offers| :: RowOk(offers[i])
  }

  ghost predicate Bounded(offers: seq<FileOffer>) {
    && |offers| <= CAPACITY && Count(offers, Slots) <= CONCURRENT_FETCHES
    && forall peer: Text :: Count(offers, OfPeer(peer)) <= PEER_CAPACITY
  }

  ghost predicate Valid(offers: seq<FileOffer>) {
    AllOk(offers) && AllApart(offers) && Bounded(offers)
  }

  // ------------------------------------------------------------ counting

  lemma {:induction false} CountAdds(offers: seq<FileOffer>, o: FileOffer, q: Query)
    ensures Count(offers + [o], q) == Count(offers, q) + if Matches(q, o) then 1 else 0
  {
    assert (offers + [o])[..|offers|] == offers;
  }

  lemma {:induction false} CountUpdates(offers: seq<FileOffer>, i: nat, o: FileOffer, q: Query)
    requires i < |offers|
    ensures Count(offers[i := o], q) + (if Matches(q, offers[i]) then 1 else 0)
      == Count(offers, q) + if Matches(q, o) then 1 else 0
  {
    var front, last := offers[..|offers| - 1], offers[|offers| - 1];
    assert offers == front + [last];
    if i < |front| {
      CountUpdates(front, i, o, q);
      assert offers[i := o] == front[i := o] + [last];
      CountAdds(front[i := o], last, q);
    } else {
      assert offers[i := o] == front + [o];
      CountAdds(front, o, q);
    }
    CountAdds(front, last, q);
  }

  lemma {:induction false} CountConcat(a: seq<FileOffer>, b: seq<FileOffer>, q: Query)
    ensures Count(a + b, q) == Count(a, q) + Count(b, q)
  {
    if b == [] {
      assert a + b == a;
    } else {
      var front, last := b[..|b| - 1], b[|b| - 1];
      assert b == front + [last] && a + b == (a + front) + [last];
      CountConcat(a, front, q);
      CountAdds(a + front, last, q);
      CountAdds(front, last, q);
    }
  }

  lemma {:induction false} RemovedCount(offers: seq<FileOffer>, i: nat, q: Query)
    requires i < |offers|
    ensures Count(RemovedAt(offers, i), q) + (if Matches(q, offers[i]) then 1 else 0) == Count(offers, q)
  {
    var front, back := offers[..i], offers[i + 1..];
    assert offers == (front + [offers[i]]) + back;
    CountConcat(front + [offers[i]], back, q);
    CountConcat(front, back, q);
    CountAdds(front, offers[i], q);
  }

  lemma {:induction false} WithoutCount(offers: seq<FileOffer>, remove: FileOffer -> bool, q: Query)
    ensures Count(Without(offers, remove), q) <= Count(offers, q)
  {
    if offers != [] {
      var front, last := offers[..|offers| - 1], offers[|offers| - 1];
      WithoutCount(front, remove, q);
      CountAdds(Without(front, remove), last, q);
      assert Without(front, remove) + [] == Without(front, remove);
    }
  }

  // ------------------------------------------------------------ removal keeps rows apart

  lemma ApartStep(offers: seq<FileOffer>, o: FileOffer)
    requires AllApart(offers) && forall i | 0 <= i < |offers| :: Apart(offers[i], o)
    ensures AllApart(offers + [o])
  {
  }

  /** Every row left was there, and is not one to remove. */
  lemma {:induction false} WithoutKeeps(offers: seq<FileOffer>, remove: FileOffer -> bool)
    ensures |Without(offers, remove)| <= |offers|
    ensures forall i | 0 <= i < |Without(offers, remove)| ::
      Without(offers, remove)[i] in offers && !remove(Without(offers, remove)[i])
    ensures AllApart(offers) ==> AllApart(Without(offers, remove))
  {
    if offers != [] {
      var front, last := offers[..|offers| - 1], offers[|offers| - 1];
      WithoutKeeps(front, remove);
      if AllApart(offers) && !remove(last) {
        forall i | 0 <= i < |Without(front, remove)| ensures Apart(Without(front, remove)[i], last) {
          var j :| 0 <= j < |front| && front[j] == Without(front, remove)[i];
          assert Apart(offers[j], offers[|offers| - 1]);
        }
        ApartStep(Without(front, remove), last);
      }
    }
  }

  /** Nothing else is removed. */
  lemma {:induction false} WithoutIsExact(offers: seq<FileOffer>, remove: FileOffer -> bool, o: FileOffer)
    ensures o in Without(offers, remove) <==> o in offers && !remove(o)
  {
    if offers != [] {
      var front, last := offers[..|offers| - 1], offers[|offers| - 1];
      WithoutIsExact(front, remove, o);
      assert offers == front + [last];
    }
  }

  // ------------------------------------------------------------ what each step keeps

  lemma UpdateKeepsValid(offers: seq<FileOffer>, i: nat, o: FileOffer)
    requires Valid(offers) && i < |offers| && RowOk(o)
    requires o.handle == offers[i].handle && o.room == offers[i].room && o.peer == offers[i].peer && o.hash == offers[i].hash
    requires Busy(o) ==> Busy(offers[i]) || Count(offers, Slots) < CONCURRENT_FETCHES
    ensures Valid(offers[i := o])
  {
    CountUpdates(offers, i, o, Slots);
    forall peer: Text ensures Count(offers[i := o], OfPeer(peer)) <= PEER_CAPACITY {
      CountUpdates(offers, i, o, OfPeer(peer));
    }
  }

  lemma {:induction false} RemovalKeepsValid(offers: seq<FileOffer>, remove: FileOffer -> bool)
    requires Valid(offers)
    ensures Valid(Without(offers, remove))
  {
    WithoutKeeps(offers, remove);
    WithoutCount(offers, remove, Slots);
    forall peer: Text ensures Count(Without(offers, remove), OfPeer(peer)) <= PEER_CAPACITY {
      WithoutCount(offers, remove, OfPeer(peer));
    }
  }

  lemma RemovedAtKeepsValid(offers: seq<FileOffer>, i: nat)
    requires Valid(offers) && i < |offers|
    ensures Valid(RemovedAt(offers, i))
  {
    RemovedCount(offers, i, Slots);
    forall peer: Text ensures Count(RemovedAt(offers, i), OfPeer(peer)) <= PEER_CAPACITY {
      RemovedCount(offers, i, OfPeer(peer));
    }
  }

  lemma AddKeepsValid(offers: seq<FileOffer>, e: Event)
    requires Valid(offers) && e.Add? && NewOffer(offers, e).Some?
    ensures Valid(offers + [NewOffer(offers, e).value])
  {
    var o := NewOffer(offers, e).value;
    var name := e.parse(e.metadata).value.name;
    assert forall i | 0 <= i < |o.name| :: o.name[i] in name;
    LowerIsLower(e.peer);
    LowerIsLower(e.parse(e.metadata).value.hash);
    forall i | 0 <= i < |offers| ensures Apart(offers[i], o) {
      assert !Matches(ByHandle(e.handle), offers[i]) && !Matches(OfFile(o.room, o.peer, o.hash), offers[i]);
    }
    ApartStep(offers, o);
    CountAdds(offers, o, Slots);
    forall peer: Text ensures Count(offers + [o], OfPeer(peer)) <= PEER_CAPACITY {
      CountAdds(offers, o, OfPeer(peer));
    }
  }

  lemma StepKeepsValid(offers: seq<FileOffer>, e: Event)
    requires Valid(offers)
    ensures Valid(Apply(offers, e))
  {
    match e
    case Withdraw(handle) =>
      var i := IndexOf(offers, ByHandle(handle));
      if i >= 0 {
        if Busy(offers[i]) {
          UpdateKeepsValid(offers, i, offers[i].(state := Canceling, withdrawn := true));
        } else if offers[i].state.Saved? {
          UpdateKeepsValid(offers, i, offers[i].(withdrawn := true));
        } else {
          RemovalKeepsValid(offers, (o: FileOffer) => o.handle == handle);
        }
      }
    case Add(_, _, _, _, _, _) =>
      if NewOffer(offers, e).Some? { AddKeepsValid(offers, e); }
    case BeginFetch(handle, path, allowed) =>
      if Begins(offers, handle, allowed) {
        var i := IndexOf(offers, ByHandle(handle));
        UpdateKeepsValid(offers, i, offers[i].(state := Fetching, destination := path, done := 0));
      }
    case Progress(handle, done) =>
      if Progresses(offers, handle, done) {
        var i := IndexOf(offers, Running(handle));
        UpdateKeepsValid(offers, i, offers[i].(done := done));
      }
    case Complete(handle, verified) =>
      var i := IndexOf(offers, Ending(handle));
      if i >= 0 {
        if !verified && offers[i].withdrawn {
          RemovedAtKeepsValid(offers, i);
        } else {
          var state := if verified then Saved else if offers[i].state.Canceling? then Canceled else Failed;
          UpdateKeepsValid(offers, i, offers[i].(state := state));
        }
      }
    case CancelRequested(handle) =>
      var i := IndexOf(offers, Running(handle));
      if i >= 0 { UpdateKeepsValid(offers, i, offers[i].(state := Canceling)); }
    case RemoveWhere(remove) => RemovalKeepsValid(offers, remove);
    case Clear =>
      assert forall peer: Text :: Count([], OfPeer(peer)) == 0;
  }

  function RunFrom(offers: seq<FileOffer>, events: seq<Event>): seq<FileOffer>
    decreases |events|
  {
    if events == [] then offers else RunFrom(Apply(offers, events[0]), events[1..])
  }

  lemma {:induction false} RunKeepsValid(offers: seq<FileOffer>, events: seq<Event>)
    requires Valid(offers)
    ensures Valid(RunFrom(offers, events))
    decreases |events|
  {
    if events != [] {
      StepKeepsValid(offers, events[0]);
      RunKeepsValid(Apply(offers, events[0]), events[1..]);
    }
  }

  /** Whatever is offered, clicked and reported, in any order, the list keeps within its limits. */
  lemma {:induction false} ReachableIsValid(events: seq<Event>)
    ensures Valid(RunFrom([], events))
  {
    assert forall peer: Text :: Count([], OfPeer(peer)) == 0;
    RunKeepsValid([], events);
  }

  // ------------------------------------------------------------ withdrawal is final

  function Row(offers: seq<FileOffer>, handle: nat): Option<FileOffer> {
    var i := IndexOf(offers, ByHandle(handle));
    if i < 0 then None else Some(offers[i])
  }

  lemma RowIsUnique(offers: seq<FileOffer>, o: FileOffer)
    requires AllApart(offers)
    ensures o in offers <==> Row(offers, o.handle) == Some(o)
  {
    if o in offers {
      var i :| 0 <= i < |offers| && offers[i] == o;
      var j := IndexOf(offers, ByHandle(o.handle));
      assert Matches(ByHandle(o.handle), offers[i]);
      assert i < j ==> Apart(offers[i], offers[j]);
      assert j < i ==> Apart(offers[j], offers[i]);
    }
  }

  lemma NoRow(offers: seq<FileOffer>, handle: nat)
    requires forall i | 0 <= i < |offers| :: offers[i].handle != handle
    ensures Row(offers, handle) == None
  {
    assert forall i | 0 <= i < |offers| :: !Matches(ByHandle(handle), offers[i]);
  }

  lemma RowOfUpdate(offers: seq<FileOffer>, i: nat, o: FileOffer, handle: nat)
    requires AllApart(offers) && i < |offers| && AllApart(offers[i := o]) && o.handle == offers[i].handle
    ensures Row(offers[i := o], handle) == if handle == o.handle then Some(o) else Row(offers, handle)
  {
    var updated := offers[i := o];
    if handle == o.handle {
      assert updated[i] == o;
      RowIsUnique(updated, o);
    } else if Row(offers, handle).Some? {
      var j := IndexOf(offers, ByHandle(handle));
      assert updated[j] == offers[j];
      RowIsUnique(updated, offers[j]);
    } else {
      forall k | 0 <= k < |updated| ensures updated[k].handle != handle {
        assert !Matches(ByHandle(handle), offers[k]);
      }
      NoRow(updated, handle);
    }
  }

  lemma {:induction false} RowOfWithout(offers: seq<FileOffer>, remove: FileOffer -> bool, handle: nat)
    requires AllApart(offers)
    ensures Row(Without(offers, remove), handle) ==
      if Row(offers, handle).Some? && remove(Row(offers, handle).value) then None else Row(offers, handle)
  {
    var rest := Without(offers, remove);
    WithoutKeeps(offers, remove);
    if Row(rest, handle).Some? {
      RowIsUnique(rest, Row(rest, handle).value);
      RowIsUnique(offers, Row(rest, handle).value);
    } else if Row(offers, handle).Some? {
      var o := Row(offers, handle).value;
      WithoutIsExact(offers, remove, o);
      RowIsUnique(offers, o);
      RowIsUnique(rest, o);
    }
  }

  lemma RowOfRemovedAt(offers: seq<FileOffer>, i: nat, handle: nat)
    requires AllApart(offers) && i < |offers|
    ensures Row(RemovedAt(offers, i), handle) == if handle == offers[i].handle then None else Row(offers, handle)
  {
    var rest := RemovedAt(offers, i);
    assert AllApart(rest);
    if handle == offers[i].handle {
      forall k | 0 <= k < |rest| ensures rest[k].handle != handle {
        if k < i { assert Apart(offers[k], offers[i]); } else { assert Apart(offers[i], offers[k + 1]); }
      }
      NoRow(rest, handle);
    } else if Row(offers, handle).Some? {
      var j := IndexOf(offers, ByHandle(handle));
      assert rest[if j < i then j else j - 1] == offers[j];
      RowIsUnique(rest, offers[j]);
    } else {
      forall k | 0 <= k < |rest| ensures rest[k].handle != handle {
        assert !Matches(ByHandle(handle), offers[if k < i then k else k + 1]);
      }
      NoRow(rest, handle);
    }
  }

  lemma RowOfAdd(offers: seq<FileOffer>, o: FileOffer, handle: nat)
    requires AllApart(offers + [o])
    ensures Row(offers + [o], handle) == if handle == o.handle then Some(o) else Row(offers, handle)
  {
    assert (offers + [o])[..|offers|] == offers;
    assert (offers + [o])[|offers|] == o;
    if handle == o.handle { RowIsUnique(offers + [o], o); }
  }

  /** With distinct handles, searching for a running or ending row is asking for the row and looking at its state. */
  lemma {:induction false} StateOfRow(offers: seq<FileOffer>, handle: nat)
    requires AllApart(offers)
    ensures IndexOf(offers, Running(handle)) >= 0 <==>
      Row(offers, handle).Some? && Row(offers, handle).value.state.Fetching?
    ensures IndexOf(offers, Ending(handle)) >= 0 <==> Row(offers, handle).Some? && Busy(Row(offers, handle).value)
    ensures IndexOf(offers, Running(handle)) >= 0 ==> Row(offers, handle) == Some(offers[IndexOf(offers, Running(handle))])
    ensures IndexOf(offers, Ending(handle)) >= 0 ==> Row(offers, handle) == Some(offers[IndexOf(offers, Ending(handle))])
  {
    var i, j, k := IndexOf(offers, ByHandle(handle)), IndexOf(offers, Running(handle)), IndexOf(offers, Ending(handle));
    if j >= 0 { RowIsUnique(offers, offers[j]); }
    if k >= 0 { RowIsUnique(offers, offers[k]); }
    if i >= 0 {
      assert offers[i].state.Fetching? ==> Matches(Running(handle), offers[i]);
      assert Busy(offers[i]) ==> Matches(Ending(handle), offers[i]);
    }
  }

  /** What one step makes of the row with this handle, said about that row alone. */
  function RowAfter(offers: seq<FileOffer>, e: Event, handle: nat): Option<FileOffer> {
    var row := Row(offers, handle);
    match e
    case Add(_, _, _, _, _, _) =>
      if NewOffer(offers, e).Some? && e.handle == handle then NewOffer(offers, e) else row
    case RemoveWhere(remove) => if row.Some? && remove(row.value) then None else row
    case Clear => None
    case _ =>
      if e.handle != handle || row.None? then row
      else
        var o := row.value;
        match e
        case Withdraw(_) =>
          if Busy(o) then Some(o.(state := Canceling, withdrawn := true))
          else if o.state.Saved? then Some(o.(withdrawn := true))
          else None
        case BeginFetch(_, path, allowed) =>
          if Begins(offers, handle, allowed) then Some(o.(state := Fetching, destination := path, done := 0)) else row
        case Progress(_, done) =>
          if o.state.Fetching? && o.done <= done <= o.size then Some(o.(done := done)) else row
        case Complete(_, verified) =>
          if !Busy(o) then row
          else if !verified && o.withdrawn then None
          else Some(o.(state := if verified then Saved else if o.state.Canceling? then Canceled else Failed))
        case CancelRequested(_) => if o.state.Fetching? then Some(o.(state := Canceling)) else row
        case _ => row
  }

  lemma WithdrawalOfRow(offers: seq<FileOffer>, h: nat, handle: nat)
    requires Valid(offers)
    ensures Row(WithWithdrawal(offers, h), handle) == RowAfter(offers, Withdraw(h), handle)
  {
    var i := IndexOf(offers, ByHandle(h));
    if i >= 0 {
      StepKeepsValid(offers, Withdraw(h));
      if Busy(offers[i]) {
        RowOfUpdate(offers, i, offers[i].(state := Canceling, withdrawn := true), handle);
      } else if offers[i].state.Saved? {
        RowOfUpdate(offers, i, offers[i].(withdrawn := true), handle);
      } else {
        RowOfWithout(offers, (o: FileOffer) => o.handle == h, handle);
      }
    }
  }

  lemma ResultOfRow(offers: seq<FileOffer>, h: nat, verified: bool, handle: nat)
    requires Valid(offers)
    ensures Row(WithResult(offers, h, verified), handle) == RowAfter(offers, Complete(h, verified), handle)
  {
    var i := IndexOf(offers, Ending(h));
    StateOfRow(offers, h);
    if i >= 0 {
      StepKeepsValid(offers, Complete(h, verified));
      if !verified && offers[i].withdrawn {
        RowOfRemovedAt(offers, i, handle);
      } else {
        var state := if verified then Saved else if offers[i].state.Canceling? then Canceled else Failed;
        RowOfUpdate(offers, i, offers[i].(state := state), handle);
      }
    }
  }

  lemma StartOfRow(offers: seq<FileOffer>, h: nat, path: Text, allowed: FileOffer -> bool, handle: nat)
    requires Valid(offers)
    ensures Row(Apply(offers, BeginFetch(h, path, allowed)), handle) == RowAfter(offers, BeginFetch(h, path, allowed), handle)
  {
    if Begins(offers, h, allowed) {
      var i := IndexOf(offers, ByHandle(h));
      RowOfUpdate(offers, i, offers[i].(state := Fetching, destination := path, done := 0), handle);
    }
  }

  lemma ProgressOfRow(offers: seq<FileOffer>, h: nat, done: nat, handle: nat)
    requires Valid(offers)
    ensures Row(Apply(offers, Progress(h, done)), handle) == RowAfter(offers, Progress(h, done), handle)
  {
    StateOfRow(offers, h);
    if Progresses(offers, h, done) {
      var i := IndexOf(offers, Running(h));
      RowOfUpdate(offers, i, offers[i].(done := done), handle);
    }
  }

  lemma CancellationOfRow(offers: seq<FileOffer>, h: nat, handle: nat)
    requires Valid(offers)
    ensures Row(Apply(offers, CancelRequested(h)), handle) == RowAfter(offers, CancelRequested(h), handle)
  {
    StateOfRow(offers, h);
    var i := IndexOf(offers, Running(h));
    if i >= 0 { RowOfUpdate(offers, i, offers[i].(state := Canceling), handle); }
  }

  /** Steps act row by row: only the named row, or the rows asked to go, change. */
  lemma StepActsOnRows(offers: seq<FileOffer>, e: Event, handle: nat)
    requires Valid(offers)
    ensures Row(Apply(offers, e), handle) == RowAfter(offers, e, handle)
  {
    StepKeepsValid(offers, e);
    match e
    case Withdraw(h) => WithdrawalOfRow(offers, h, handle);
    case Add(_, _, _, _, _, _) =>
      if NewOffer(offers, e).Some? { RowOfAdd(offers, NewOffer(offers, e).value, handle); }
    case BeginFetch(h, path, allowed) => StartOfRow(offers, h, path, allowed, handle);
    case Progress(h, done) => ProgressOfRow(offers, h, done, handle);
    case Complete(h, verified) => ResultOfRow(offers, h, verified, handle);
    case CancelRequested(h) => CancellationOfRow(offers, h, handle);
    case RemoveWhere(remove) => RowOfWithout(offers, remove, handle);
    case Clear =>
  }

  predicate GoneOrWithdrawn(offers: seq<FileOffer>, handle: nat) {
    Row(offers, handle).Some? ==> Row(offers, handle).value.withdrawn
  }

  /** A withdrawn offer never runs again: unless its handle is offered anew, it stays withdrawn or goes. */
  lemma {:induction false} WithdrawalIsFinal(offers: seq<FileOffer>, events: seq<Event>, handle: nat)
    requires Valid(offers) && GoneOrWithdrawn(offers, handle)
    requires forall i | 0 <= i < |events| :: events[i].Add? ==> events[i].handle != handle
    ensures GoneOrWithdrawn(RunFrom(offers, events), handle)
    ensures var row := Row(RunFrom(offers, events), handle);
      row.Some? ==> row.value.state.Canceling? || row.value.state.Saved?
    decreases |events|
  {
    if events == [] {
      if Row(offers, handle).Some? { assert RowOk(offers[IndexOf(offers, ByHandle(handle))]); }
    } else {
      StepKeepsValid(offers, events[0]);
      StepActsOnRows(offers, events[0], handle);
      if Row(offers, handle).Some? { assert RowOk(offers[IndexOf(offers, ByHandle(handle))]); }
      WithdrawalIsFinal(Apply(offers, events[0]), events[1..], handle);
    }
  }
}
