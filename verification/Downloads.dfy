/**
 Downloads as the service runs them (src/XivLantern.Plugin/LanternService.cs:246-259, 455-479,
 1058-1134): a click reserves a slot and prepares the folder in the background, the callback
 starts the native fetch, and native events end it, while withdrawals, mutes and restarts come in
 between.

 The steps of all of these interleave freely. What is assumed of the outside: the native side
 never offers the same handle twice to one node, and a fetch's file name is a fresh GUID. Native
 events are arbitrary; so are the outcomes of preparing the folder and of the native calls.
 */
module Downloads {
  import opened HexText
  import opened Results
  import opened FileOffers
  import opened FileOfferLimits

  /** A preparation that is still to report back on the framework thread. */
  datatype Callback = Callback(generation: nat, handle: nat, destination: Text)

  /**
   The service's fields, and what the outside has done: `pending` callbacks, the `used` handles of
   this node, every file name ever drawn (`paths`), and the native fetches started.
   */
  datatype Machine = Machine(
    offers: seq<FileOffer>, queued: set<nat>, generation: nat, on: bool,
    pending: set<Callback>, used: set<nat>, paths: set<Text>, fetches: seq<Text>)

  datatype Step =
    | Start
    | Stop
    | Offered(add: Event)
    | Download(handle: nat, path: Text, allowed: FileOffer -> bool)
    | Prepared(callback: Callback, deleted: set<Text>, failed: bool, allowed: FileOffer -> bool)
    | Cancel(handle: nat, refused: bool)
    | Withdrawn(handle: nat)
    | Progressed(handle: nat, done: nat)
    | Ended(handle: nat, verified: bool)
    | Forget(remove: FileOffer -> bool)

  /** What the outside promises about a step. */
  predicate Legal(m: Machine, s: Step) {
    match s
    case Offered(add) => add.Add? && add.handle !in m.used
    case Download(_, path, _) => path !in m.paths
    case _ => true
  }

  function Expired(deleted: set<Text>): FileOffer -> bool {
    (o: FileOffer) => o.state.Saved? && o.destination in deleted
  }

  /** The callback finds the row it was made for, still at its own destination. */
  predicate IsOwn(offers: seq<FileOffer>, callback: Callback) {
    Row(offers, callback.handle).Some? && Row(offers, callback.handle).value.destination == callback.destination
  }

  /** DownloadFile, once its checks have passed. */
  predicate Reserves(m: Machine, s: Step)
    requires s.Download?
  {
    var row := Row(m.offers, s.handle);
    m.on && row.Some? && s.allowed(row.value) && Begins(m.offers, s.handle, s.allowed)
  }

  /** The end of a preparation in its own generation. */
  function AfterCallback(m: Machine, s: Step): Machine
    requires s.Prepared?
  {
    var cb := s.callback;
    var offers := Apply(m.offers, RemoveWhere(Expired(s.deleted)));
    if !IsOwn(offers, cb) then m.(offers := offers)
    else
      var row := Row(offers, cb.handle).value;
      if !row.state.Fetching? || !s.allowed(row) || s.failed then m.(offers := Apply(offers, Complete(cb.handle, false)))
      else m.(offers := offers, queued := m.queued + {cb.handle}, fetches := m.fetches + [cb.destination])
  }

  function AfterCancel(m: Machine, handle: nat, refused: bool): Machine {
    var row := Row(m.offers, handle);
    if row.None? || !row.value.state.Fetching? then m
    else if handle !in m.queued then
      m.(offers := Apply(Apply(m.offers, CancelRequested(handle)), Complete(handle, false)))
    else if refused then m
    else m.(offers := Apply(m.offers, CancelRequested(handle)))
  }

  function Next(m: Machine, s: Step): Machine {
    match s
    case Start => if m.on then m else m.(generation := m.generation + 1, on := true, used := {})
    case Stop => m.(offers := [], queued := {}, generation := m.generation + 1, on := false, used := {})
    case Offered(add) =>
      if m.on && add.Add? then m.(offers := Apply(m.offers, add), used := m.used + {add.handle}) else m
    case Download(handle, path, allowed) =>
      if Reserves(m, s) then
        m.(offers := Apply(m.offers, BeginFetch(handle, path, allowed)), paths := m.paths + {path},
           pending := m.pending + {Callback(m.generation, handle, path)})
      else m
    case Prepared(callback, _, _, _) =>
      if callback !in m.pending then m
      else
        var waiting := m.(pending := m.pending - {callback});
        if callback.generation != m.generation then waiting else AfterCallback(waiting, s)
    case Cancel(handle, refused) => AfterCancel(m, handle, refused)
    case Withdrawn(handle) => m.(offers := Apply(m.offers, Withdraw(handle)))
    case Progressed(handle, done) => m.(offers := Apply(m.offers, Progress(handle, done)))
    case Ended(handle, verified) =>
      if handle !in m.queued then m
      else m.(queued := m.queued - {handle}, offers := Apply(m.offers, Complete(handle, verified)))
    case Forget(remove) => m.(offers := Apply(m.offers, RemoveWhere(remove)))
  }

  const OFF: Machine := Machine([], {}, 0, false, {}, {}, {}, [])

  // ------------------------------------------------------------ the invariant

  predicate Awaits(m: Machine, o: FileOffer) {
    Callback(m.generation, o.handle, o.destination) in m.pending
  }

  /** A running or canceling row has exactly one obligation, any other row has none in the queue. */
  predicate Obliged(m: Machine, row: Option<FileOffer>) {
    row.Some? ==>
      var o := row.value;
      o.handle in m.used && if Busy(o) then Awaits(m, o) != (o.handle in m.queued) else o.handle !in m.queued
  }

  ghost predicate PendingOk(m: Machine) {
    && (forall cb | cb in m.pending :: cb.generation <= m.generation && cb.destination in m.paths && cb.destination !in m.fetches)
    && (forall a, b | a in m.pending && b in m.pending :: a.destination == b.destination ==> a == b)
  }

  ghost predicate FetchesOk(m: Machine) {
    && (forall i | 0 <= i < |m.fetches| :: m.fetches[i] in m.paths)
    && (forall i, j | 0 <= i < j < |m.fetches| :: m.fetches[i] != m.fetches[j])
  }

  ghost predicate RowsObliged(m: Machine) {
    forall h: nat :: Obliged(m, Row(m.offers, h))
  }

  ghost predicate Inv(m: Machine) {
    && Valid(m.offers) && RowsObliged(m) && PendingOk(m) && FetchesOk(m)
    && m.queued <= m.used && (!m.on ==> m.offers == [] && m.queued == {})
  }

  lemma OffKeepsInv()
    ensures Inv(OFF)
  {
    ReachableIsValid([]);
  }

  /** A step on the list of offers alone keeps every row's obligation if it keeps the rows' identity and business. */
  predicate SameBusiness(before: Option<FileOffer>, after: Option<FileOffer>) {
    after.Some? ==>
      && before.Some? && after.value.handle == before.value.handle
      && (Busy(after.value) <==> Busy(before.value))
      && (Busy(after.value) ==> after.value.destination == before.value.destination)
  }

  lemma ListStepKeepsInv(m: Machine, e: Event)
    requires Inv(m)
    requires forall h: nat :: SameBusiness(Row(m.offers, h), RowAfter(m.offers, e, h))
    requires m.offers == [] ==> Apply(m.offers, e) == []
    ensures Inv(m.(offers := Apply(m.offers, e)))
  {
    var next := m.(offers := Apply(m.offers, e));
    StepKeepsValid(m.offers, e);
    forall h: nat ensures Obliged(next, Row(next.offers, h)) {
      StepActsOnRows(m.offers, e, h);
      assert Obliged(m, Row(m.offers, h));
      assert SameBusiness(Row(m.offers, h), RowAfter(m.offers, e, h));
    }
  }

  lemma OfferKeepsInv(m: Machine, e: Event)
    requires Inv(m) && e.Add? && e.handle !in m.used && m.on
    ensures Inv(m.(offers := Apply(m.offers, e), used := m.used + {e.handle}))
  {
    var next := m.(offers := Apply(m.offers, e), used := m.used + {e.handle});
    StepKeepsValid(m.offers, e);
    forall h: nat ensures Obliged(next, Row(next.offers, h)) {
      StepActsOnRows(m.offers, e, h);
      assert Obliged(m, Row(m.offers, h));
    }
  }

  lemma DownloadKeepsInv(m: Machine, s: Step)
    requires Inv(m) && s.Download? && Legal(m, s)
    ensures Inv(Next(m, s))
  {
    if Reserves(m, s) {
      StepKeepsValid(m.offers, BeginFetch(s.handle, s.path, s.allowed));
      forall h: nat ensures Obliged(Next(m, s), Row(Next(m, s).offers, h)) { DownloadKeepsRow(m, s, h); }
      assert PendingOk(Next(m, s));
    }
  }

  lemma DownloadKeepsRow(m: Machine, s: Step, h: nat)
    requires Inv(m) && s.Download? && Legal(m, s) && Reserves(m, s)
    ensures Obliged(Next(m, s), Row(Next(m, s).offers, h))
  {
    StepActsOnRows(m.offers, BeginFetch(s.handle, s.path, s.allowed), h);
    assert Obliged(m, Row(m.offers, h));
  }

  /** The row with this handle ends, and is no longer queued. */
  lemma EndKeepsInv(m: Machine, before: Machine, handle: nat, verified: bool)
    requires Inv(before) && m == before.(queued := before.queued - {handle})
    ensures Inv(m.(offers := Apply(m.offers, Complete(handle, verified))))
  {
    var e := Complete(handle, verified);
    var next := m.(offers := Apply(m.offers, e));
    StepKeepsValid(m.offers, e);
    forall h: nat ensures Obliged(next, Row(next.offers, h)) {
      StepActsOnRows(m.offers, e, h);
      assert Obliged(before, Row(before.offers, h));
    }
  }

  lemma CallbackKeepsInv(m: Machine, s: Step)
    requires Inv(m) && s.Prepared? && s.callback in m.pending
    ensures Inv(Next(m, s))
  {
    var cb := s.callback;
    var waiting := m.(pending := m.pending - {cb});
    if cb.generation != m.generation {
      forall h: nat ensures Obliged(waiting, Row(waiting.offers, h)) { assert Obliged(m, Row(m.offers, h)); }
    } else {
      var e := RemoveWhere(Expired(s.deleted));
      StepKeepsValid(m.offers, e);
      OwnCallbackKeepsInv(m, s, Apply(m.offers, e));
    }
  }

  /** A callback that has run matters only to the row it was made for. */
  lemma OthersStillWait(m: Machine, cb: Callback, row: Option<FileOffer>)
    requires Obliged(m, row)
    requires row.Some? ==> row.value.handle != cb.handle || row.value.destination != cb.destination
    ensures Obliged(m.(pending := m.pending - {cb}), row)
  {
  }

  /** The callback's own row: it was not queued, and now it either ends or is queued instead. */
  lemma OwnCallbackKeepsOwnRow(m: Machine, s: Step, offers: seq<FileOffer>)
    requires Valid(offers) && s.Prepared? && s.callback in m.pending && s.callback.generation == m.generation
    requires IsOwn(offers, s.callback) && Obliged(m, Row(offers, s.callback.handle))
    ensures var waiting := m.(pending := m.pending - {s.callback});
      var row, e := Row(offers, s.callback.handle), Complete(s.callback.handle, false);
      && Obliged(waiting, Row(Apply(offers, e), s.callback.handle))
      && (row.value.state.Fetching? ==> Obliged(waiting.(queued := m.queued + {s.callback.handle}), row))
  {
    StepActsOnRows(offers, Complete(s.callback.handle, false), s.callback.handle);
  }

  lemma OwnCallbackKeepsRow(m: Machine, s: Step, offers: seq<FileOffer>, h: nat)
    requires Valid(m.offers) && Valid(offers) && Obliged(m, Row(m.offers, h))
    requires s.Prepared? && s.callback in m.pending && s.callback.generation == m.generation
    requires offers == Apply(m.offers, RemoveWhere(Expired(s.deleted)))
    ensures var next := AfterCallback(m.(pending := m.pending - {s.callback}), s);
      Obliged(next, Row(next.offers, h))
  {
    var cb := s.callback;
    StepActsOnRows(m.offers, RemoveWhere(Expired(s.deleted)), h);
    assert Obliged(m, Row(offers, h));
    if IsOwn(offers, cb) && h == cb.handle {
      OwnCallbackKeepsOwnRow(m, s, offers);
    } else {
      OwnCallbackKeepsOtherRow(m, s, offers, h);
    }
  }

  lemma OwnCallbackKeepsOtherRow(m: Machine, s: Step, offers: seq<FileOffer>, h: nat)
    requires Valid(offers) && Obliged(m, Row(offers, h)) && s.Prepared?
    requires offers == Apply(m.offers, RemoveWhere(Expired(s.deleted)))
    requires IsOwn(offers, s.callback) ==> h != s.callback.handle
    ensures var next := AfterCallback(m.(pending := m.pending - {s.callback}), s);
      Obliged(next, Row(next.offers, h))
  {
    OthersStillWait(m, s.callback, Row(offers, h));
    StepActsOnRows(offers, Complete(s.callback.handle, false), h);
  }

  lemma OwnCallbackKeepsInv(m: Machine, s: Step, offers: seq<FileOffer>)
    requires Inv(m) && s.Prepared? && s.callback in m.pending && s.callback.generation == m.generation
    requires offers == Apply(m.offers, RemoveWhere(Expired(s.deleted))) && Valid(offers)
    ensures Inv(AfterCallback(m.(pending := m.pending - {s.callback}), s))
  {
    var cb := s.callback;
    var next := AfterCallback(m.(pending := m.pending - {cb}), s);
    StepKeepsValid(offers, Complete(cb.handle, false));
    forall h: nat ensures Obliged(next, Row(next.offers, h)) {
      assert Obliged(m, Row(m.offers, h));
      OwnCallbackKeepsRow(m, s, offers, h);
    }
    if IsOwn(offers, cb) {
      StepActsOnRows(m.offers, RemoveWhere(Expired(s.deleted)), cb.handle);
      assert Obliged(m, Row(m.offers, cb.handle));
    }
  }

  lemma CancelKeepsInv(m: Machine, handle: nat, refused: bool)
    requires Inv(m)
    ensures Inv(AfterCancel(m, handle, refused))
  {
    var row := Row(m.offers, handle);
    if row.Some? && row.value.state.Fetching? {
      var e := CancelRequested(handle);
      assert Inv(m.(offers := Apply(m.offers, e))) by {
        ListStepKeepsInv(m, e);
      }
      if handle !in m.queued {
        var asked := m.(offers := Apply(m.offers, e));
        assert m.queued - {handle} == m.queued;
        EndKeepsInv(asked, asked, handle, false);
      }
    }
  }

  lemma StepKeepsInv(m: Machine, s: Step)
    requires Inv(m) && Legal(m, s)
    ensures Inv(Next(m, s))
  {
    match s
    case Start =>
      forall h: nat ensures Obliged(Next(m, s), Row(Next(m, s).offers, h)) { assert Obliged(m, Row(m.offers, h)); }
    case Stop => OffKeepsInv();
    case Offered(add) => if m.on { OfferKeepsInv(m, add); }
    case Download(_, _, _) => DownloadKeepsInv(m, s);
    case Prepared(callback, _, _, _) => if callback in m.pending { CallbackKeepsInv(m, s); }
    case Cancel(handle, refused) => CancelKeepsInv(m, handle, refused);
    case Withdrawn(handle) => ListStepKeepsInv(m, Withdraw(handle));
    case Progressed(handle, done) => ListStepKeepsInv(m, Progress(handle, done));
    case Ended(handle, verified) =>
      if handle in m.queued { EndKeepsInv(m.(queued := m.queued - {handle}), m, handle, verified); }
    case Forget(remove) => ListStepKeepsInv(m, RemoveWhere(remove));
  }

  // ------------------------------------------------------------ runs

  function Run(m: Machine, steps: seq<Step>): Machine
    decreases |steps|
  {
    if steps == [] then m else Run(Next(m, steps[0]), steps[1..])
  }

  predicate LegalRun(m: Machine, steps: seq<Step>)
    decreases |steps|
  {
    steps == [] || (Legal(m, steps[0]) && LegalRun(Next(m, steps[0]), steps[1..]))
  }

  /**
   In every interleaving, each running or canceling row waits for exactly one thing, its own
   callback or its native fetch's end, and no file name is fetched twice.
   */
  lemma {:induction false} RunKeepsInv(m: Machine, steps: seq<Step>)
    requires Inv(m) && LegalRun(m, steps)
    ensures Inv(Run(m, steps))
    decreases |steps|
  {
    if steps != [] {
      StepKeepsInv(m, steps[0]);
      RunKeepsInv(Next(m, steps[0]), steps[1..]);
    }
  }

  /** The same, said of every listed row: no slot is held for nothing, and none is owed to twice. */
  lemma {:induction false} OneObligationEach(steps: seq<Step>, o: FileOffer)
    requires LegalRun(OFF, steps) && o in Run(OFF, steps).offers
    ensures var m := Run(OFF, steps);
      && (Busy(o) ==> (Callback(m.generation, o.handle, o.destination) in m.pending) != (o.handle in m.queued))
      && (!Busy(o) ==> o.handle !in m.queued)
  {
    var m := Run(OFF, steps);
    OffKeepsInv();
    RunKeepsInv(OFF, steps);
    RowIsUnique(m.offers, o);
    assert Obliged(m, Row(m.offers, o.handle));
  }

  /** Each reservation starts at most one native fetch: started fetches have different file names. */
  lemma {:induction false} FetchesAreDistinct(steps: seq<Step>)
    requires LegalRun(OFF, steps)
    ensures var m := Run(OFF, steps);
      && (forall i, j | 0 <= i < j < |m.fetches| :: m.fetches[i] != m.fetches[j])
      && forall cb | cb in m.pending :: cb.destination !in m.fetches
  {
    OffKeepsInv();
    RunKeepsInv(OFF, steps);
  }

  // ------------------------------------------------------------ no slot leaks

  predicate Drains(s: Step) {
    s.Prepared? || s.Ended?
  }

  /** Running callbacks empties what is pending of exactly those callbacks. */
  lemma {:induction false} CallbacksRun(m: Machine, steps: seq<Step>)
    requires forall i | 0 <= i < |steps| :: Drains(steps[i])
    ensures Run(m, steps).pending <= m.pending
    ensures forall cb | cb in Run(m, steps).pending :: forall i | 0 <= i < |steps| :: steps[i].Prepared? ==> steps[i].callback != cb
    decreases |steps|
  {
    if steps != [] { CallbacksRun(Next(m, steps[0]), steps[1..]); }
  }

  lemma {:induction false} EndsRun(m: Machine, steps: seq<Step>)
    requires forall i | 0 <= i < |steps| :: steps[i].Ended?
    ensures Run(m, steps).queued <= m.queued && Run(m, steps).pending == m.pending
    ensures forall h | h in Run(m, steps).queued :: forall i | 0 <= i < |steps| :: steps[i].handle != h
    decreases |steps|
  {
    if steps != [] { EndsRun(Next(m, steps[0]), steps[1..]); }
  }

  lemma {:induction false} NoneBusy(offers: seq<FileOffer>)
    requires forall i | 0 <= i < |offers| :: !Busy(offers[i])
    ensures Count(offers, Slots) == 0
  {
    if offers != [] { NoneBusy(offers[..|offers| - 1]); }
  }

  lemma {:induction false} DrainingIsLegal(m: Machine, steps: seq<Step>)
    requires forall i | 0 <= i < |steps| :: Drains(steps[i])
    ensures LegalRun(m, steps)
    decreases |steps|
  {
    if steps != [] { DrainingIsLegal(Next(m, steps[0]), steps[1..]); }
  }

  /**
   No slot leaks: from any reachable state, once every pending preparation has reported and every
   fetch then running has ended, with whatever outcomes, both slots are free.
   */
  lemma {:induction false} DrainingFreesSlots(m: Machine, callbacks: seq<Step>, ends: seq<Step>)
    requires Inv(m)
    requires forall i | 0 <= i < |callbacks| :: callbacks[i].Prepared?
    requires forall i | 0 <= i < |ends| :: ends[i].Ended?
    requires forall cb | cb in m.pending :: exists i :: 0 <= i < |callbacks| && callbacks[i].callback == cb
    requires forall h | h in Run(m, callbacks).queued :: exists i :: 0 <= i < |ends| && ends[i].handle == h
    ensures Count(Run(Run(m, callbacks), ends).offers, Slots) == 0
  {
    var waiting := Run(m, callbacks);
    DrainingIsLegal(m, callbacks);
    RunKeepsInv(m, callbacks);
    CallbacksRun(m, callbacks);
    DrainingIsLegal(waiting, ends);
    RunKeepsInv(waiting, ends);
    EndsRun(waiting, ends);
    var done := Run(waiting, ends);
    forall i | 0 <= i < |done.offers| ensures !Busy(done.offers[i]) {
      RowIsUnique(done.offers, done.offers[i]);
      assert Obliged(done, Row(done.offers, done.offers[i].handle));
    }
    NoneBusy(done.offers);
  }

  // ------------------------------------------------------------ the service

  datatype Reply = Done | NotSupported | NotAvailable | TwoRunning | NotRunning | Finished

  class Service {
    const files: OfferList
    var queued: set<nat>
    var generation: nat
    var on: bool
    var pending: set<Callback>
    ghost var used: set<nat>
    ghost var paths: set<Text>
    ghost var fetches: seq<Text>

    ghost function State(): Machine
      reads this, files
    {
      Machine(files.offers, queued, generation, on, pending, used, paths, fetches)
    }

    constructor ()
      ensures State() == OFF && fresh(files)
    {
      files := new OfferList();
      queued, generation, on, pending := {}, 0, false, {};
      used, paths, fetches := {}, {}, [];
    }

    method Start()
      modifies this, files
      ensures State() == Next(old(State()), Step.Start)
    {
      if on { return; }
      generation, on, used := generation + 1, true, {};
    }

    method Stop()
      modifies this, files
      ensures State() == Next(old(State()), Step.Stop)
    {
      generation, on, used := generation + 1, false, {};
      files.Clear();
      queued := {};
    }

    method DownloadFile(handle: nat, path: Text, allowed: FileOffer -> bool) returns (reply: Reply)
      modifies this, files
      ensures State() == Next(old(State()), Download(handle, path, allowed))
      ensures reply == Done <==> Reserves(old(State()), Download(handle, path, allowed))
    {
      if !on { return NotSupported; }
      var offer := files.Find(handle);
      if offer.None? || !allowed(offer.value) { return NotAvailable; }
      var destination := files.BeginFetch(handle, path, allowed);
      if destination.None? { return TwoRunning; }
      pending, paths := pending + {Callback(generation, handle, path)}, paths + {path};
      reply := Done;
    }

    /** What the background preparation queues for the framework thread; `refused` if the native fetch throws. */
    method PreparationDone(callback: Callback, deleted: set<Text>, failed: bool, refused: bool, allowed: FileOffer -> bool)
      requires callback in pending
      modifies this, files
      ensures State() == Next(old(State()), Prepared(callback, deleted, failed || refused, allowed))
    {
      pending := pending - {callback};
      if generation != callback.generation { return; }
      files.RemoveWhere(Expired(deleted));
      var row := files.Find(callback.handle);
      if row.None? || row.value.destination != callback.destination { return; }
      if !row.value.state.Fetching? || !allowed(row.value) {
        var ended := files.Complete(callback.handle, false);
        return;
      }
      if !failed && !refused {
        fetches := fetches + [callback.destination];
        queued := queued + {callback.handle};
      } else {
        var ended := files.Complete(callback.handle, false);
      }
    }

    method CancelFileDownload(handle: nat, refused: bool) returns (reply: Reply)
      modifies this, files
      ensures State() == Next(old(State()), Cancel(handle, refused))
    {
      var offer := files.Find(handle);
      if offer.None? || !offer.value.state.Fetching? { return NotRunning; }
      if handle !in queued {
        var canceled := files.CancelRequested(handle);
        var ended := files.Complete(handle, false);
        return Done;
      }
      if refused { return Finished; }
      var canceled := files.CancelRequested(handle);
      reply := Done;
    }

    method BlobOffered(handle: nat, peer: Text, metadata: Text, parse: Text -> Option<Metadata>,
      roomAllowed: nat -> bool, peerAllowed: Text -> bool)
      requires on
      modifies this, files
      ensures State() == Next(old(State()), Step.Offered(Event.Add(handle, peer, metadata, parse, roomAllowed, peerAllowed)))
    {
      var added := files.Add(handle, peer, metadata, parse, roomAllowed, peerAllowed);
      used := used + {handle};
    }

    method BlobProgressed(handle: nat, done: nat)
      modifies this, files
      ensures State() == Next(old(State()), Progressed(handle, done))
    {
      var moved := files.Progress(handle, done);
    }

    method BlobWithdrawn(handle: nat)
      modifies this, files
      ensures State() == Next(old(State()), Withdrawn(handle))
    {
      files.Withdraw(handle);
    }

    /** BlobDone and BlobFailed; false if the event is about an upload instead. */
    method DownloadEnded(handle: nat, verified: bool) returns (mine: bool)
      modifies this, files
      ensures State() == Next(old(State()), Ended(handle, verified)) && mine == (handle in old(queued))
    {
      mine := handle in queued;
      if mine {
        queued := queued - {handle};
        var ended := files.Complete(handle, verified);
      }
    }

    /** The rows go; native fetches among them are only asked to stop, and stay queued until they end. */
    method ForgetFileOffers(remove: FileOffer -> bool)
      modifies this, files
      ensures State() == Next(old(State()), Forget(remove))
    {
      files.RemoveWhere(remove);
    }
  }
}
