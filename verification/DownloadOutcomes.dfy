/**
 What becomes of a download (src/XivLantern.Plugin/LanternService.cs:455-479, 1058-1134 with
 src/XivLantern.Core/FileOffers.cs:79-123): which click reserves a slot, which preparation starts
 the native fetch, and how each ending shows in the row. The invariants of `Downloads` would hold
 of a service that never fetches anything; these lemmas would not.
 */
module DownloadOutcomes {
  import opened HexText
  import opened Results
  import opened FileOffers
  import opened FileOfferLimits
  import opened FileAdmission
  import opened Downloads

  /** Nothing happens to any other row. */
  ghost predicate OthersStay(before: seq<FileOffer>, after: seq<FileOffer>, handle: nat) {
    forall h: nat :: h != handle ==> Row(after, h) == Row(before, h)
  }

  // ------------------------------------------------------------ the click

  /** A listed, allowed row that is not being fetched nor saved, while fewer than two rows are busy. */
  ghost predicate CanStart(m: Machine, handle: nat, allowed: FileOffer -> bool) {
    && m.on && Row(m.offers, handle).Some? && allowed(Row(m.offers, handle).value)
    && Row(m.offers, handle).value.state in {State.Offered, Failed, Canceled}
    && |Rows(m.offers, Slots)| < 2
  }

  /** A click reserves a slot for exactly such a row, and does nothing otherwise. */
  lemma ClickReserves(m: Machine, handle: nat, path: Text, allowed: FileOffer -> bool)
    requires Inv(m)
    ensures var next := Next(m, Download(handle, path, allowed));
      if CanStart(m, handle, allowed) then
        && Row(next.offers, handle) ==
             Some(Row(m.offers, handle).value.(state := Fetching, destination := path, done := 0))
        && OthersStay(m.offers, next.offers, handle)
        && next.pending == m.pending + {Callback(m.generation, handle, path)} && next.queued == m.queued
      else next == m
  {
    var e := BeginFetch(handle, path, allowed);
    BeginsExactly(m.offers, handle, allowed);
    StepActsOnRows(m.offers, e, handle);
    forall h: nat | h != handle ensures Row(Apply(m.offers, e), h) == Row(m.offers, h) { StepActsOnRows(m.offers, e, h); }
  }

  // ------------------------------------------------------------ the preparation

  /** The callback's own row, in the callback's own generation, as it stands when it reports. */
  predicate Reports(m: Machine, cb: Callback, o: FileOffer) {
    && cb in m.pending && cb.generation == m.generation
    && Row(m.offers, cb.handle) == Some(o) && o.destination == cb.destination
  }

  lemma CleaningSpares(m: Machine, deleted: set<Text>, o: FileOffer)
    requires Inv(m) && Row(m.offers, o.handle) == Some(o) && !o.state.Saved?
    ensures Row(Apply(m.offers, RemoveWhere(Expired(deleted))), o.handle) == Some(o)
  {
    StepActsOnRows(m.offers, RemoveWhere(Expired(deleted)), o.handle);
  }

  lemma HandleOfRow(offers: seq<FileOffer>, handle: nat)
    requires Row(offers, handle).Some?
    ensures Row(offers, handle).value.handle == handle
  {
  }

  /** A folder that could be prepared: the fetch starts, and the row waits for its end. */
  lemma PreparedStarts(m: Machine, s: Step, o: FileOffer)
    requires Inv(m) && s.Prepared? && Reports(m, s.callback, o)
    requires o.state.Fetching? && s.allowed(o) && !s.failed
    ensures var next := Next(m, s);
      && next.fetches == m.fetches + [o.destination] && next.queued == m.queued + {o.handle}
      && Row(next.offers, o.handle) == Some(o)
  {
    HandleOfRow(m.offers, s.callback.handle);
    CleaningSpares(m, s.deleted, o);
  }

  /** A folder that could not, an offer no longer allowed, or a cancel meanwhile: nothing starts and the slot is free. */
  lemma PreparedFails(m: Machine, s: Step, o: FileOffer)
    requires Inv(m) && s.Prepared? && Reports(m, s.callback, o) && Busy(o)
    requires s.failed || !s.allowed(o) || o.state.Canceling?
    ensures var next := Next(m, s);
      && next.fetches == m.fetches && next.queued == m.queued
      && Row(next.offers, o.handle) ==
           if o.withdrawn then None else Some(o.(state := if o.state.Canceling? then Canceled else Failed))
  {
    HandleOfRow(m.offers, s.callback.handle);
    CleaningSpares(m, s.deleted, o);
    var offers := Apply(m.offers, RemoveWhere(Expired(s.deleted)));
    StepKeepsValid(m.offers, RemoveWhere(Expired(s.deleted)));
    StepActsOnRows(offers, Complete(o.handle, false), o.handle);
  }

  /** A callback of another generation, or whose row is gone, at rest or has another destination, changes nothing. */
  lemma StrangersChangeNothing(m: Machine, s: Step, h: nat)
    requires Inv(m) && s.Prepared? && forall o | o in m.offers :: Reports(m, s.callback, o) ==> !Busy(o)
    ensures var next, cleaned := Next(m, s), Apply(m.offers, RemoveWhere(Expired(s.deleted)));
      && next.fetches == m.fetches && next.queued == m.queued
      && (Row(next.offers, h) == Row(m.offers, h) || Row(next.offers, h) == Row(cleaned, h))
  {
    var cb, cleaned := s.callback, Apply(m.offers, RemoveWhere(Expired(s.deleted)));
    StepKeepsValid(m.offers, RemoveWhere(Expired(s.deleted)));
    StepActsOnRows(m.offers, RemoveWhere(Expired(s.deleted)), cb.handle);
    if cb in m.pending && cb.generation == m.generation && IsOwn(cleaned, cb) {
      assert Reports(m, cb, Row(m.offers, cb.handle).value);
      StateOfRow(cleaned, cb.handle);
    }
  }

  /** And cleaning the folder only takes away saved rows whose file it deleted. */
  lemma CleaningShows(m: Machine, deleted: set<Text>, h: nat)
    requires Inv(m)
    ensures var row := Row(m.offers, h);
      Row(Apply(m.offers, RemoveWhere(Expired(deleted))), h) ==
        if row.Some? && row.value.state.Saved? && row.value.destination in deleted then None else row
  {
    StepActsOnRows(m.offers, RemoveWhere(Expired(deleted)), h);
  }

  // ------------------------------------------------------------ events and cancels

  /** A fetch's end: verified is saved, a withdrawn row goes, a canceled one says so, any other has failed. */
  lemma EndShows(m: Machine, o: FileOffer, verified: bool)
    requires Inv(m) && Row(m.offers, o.handle) == Some(o) && o.handle in m.queued
    ensures var next := Next(m, Ended(o.handle, verified));
      && next.queued == m.queued - {o.handle} && OthersStay(m.offers, next.offers, o.handle)
      && Row(next.offers, o.handle) ==
           if verified then Some(o.(state := Saved))
           else if o.withdrawn then None
           else Some(o.(state := if o.state.Canceling? then Canceled else Failed))
  {
    var e := Complete(o.handle, verified);
    assert Obliged(m, Row(m.offers, o.handle));
    StepActsOnRows(m.offers, e, o.handle);
    forall h: nat | h != o.handle ensures Row(Apply(m.offers, e), h) == Row(m.offers, h) { StepActsOnRows(m.offers, e, h); }
  }

  /** An event for a handle that is not queued is not about a download, and changes nothing. */
  lemma StrayEndChangesNothing(m: Machine, handle: nat, verified: bool)
    requires handle !in m.queued
    ensures Next(m, Ended(handle, verified)) == m
  {
  }

  /** An offer is listed, while the service runs, exactly if it is well formed and has a place. */
  lemma OfferShows(m: Machine, e: Event)
    requires Inv(m) && m.on && e.Add?
    ensures var next := Next(m, Step.Offered(e));
      && next.queued == m.queued && next.pending == m.pending && next.fetches == m.fetches
      && if WellFormed(e) && HasPlace(m.offers, e) then
           exists directory, base :: IsShowable(e.parse(e.metadata).value.name, directory, base)
             && next.offers == m.offers + [Listing(e, base)]
         else next.offers == m.offers
  {
    OfferIsListed(m.offers, e);
  }

  /** Progress that goes forwards and within the size shows; anything else does not. */
  lemma ProgressShows(m: Machine, handle: nat, done: nat, h: nat)
    requires Inv(m)
    ensures var row := Row(m.offers, h);
      Row(Next(m, Progressed(handle, done)).offers, h) ==
        if h == handle && row.Some? && row.value.state.Fetching? && row.value.done <= done <= row.value.size
        then Some(row.value.(done := done)) else row
  {
    StepActsOnRows(m.offers, Progress(handle, done), h);
  }

  /** Before the native fetch a cancel ends the row at once; during it the row waits, unless the fetch has just ended. */
  lemma CancelShows(m: Machine, o: FileOffer, refused: bool)
    requires Inv(m) && Row(m.offers, o.handle) == Some(o)
    ensures var next := Next(m, Cancel(o.handle, refused));
      && next.queued == m.queued && next.fetches == m.fetches && next.pending == m.pending
      && Row(next.offers, o.handle) == Some(
           if !o.state.Fetching? then o
           else if o.handle !in m.queued then o.(state := Canceled)
           else if refused then o
           else o.(state := Canceling))
  {
    var e := CancelRequested(o.handle);
    StepKeepsValid(m.offers, e);
    StepActsOnRows(m.offers, e, o.handle);
    StepActsOnRows(Apply(m.offers, e), Complete(o.handle, false), o.handle);
    RowIsUnique(m.offers, o);
  }

  /** A withdrawn offer goes, unless it is being fetched or is saved: then it is marked, and a fetch is asked to stop. */
  lemma WithdrawalShows(m: Machine, handle: nat, h: nat)
    requires Inv(m)
    ensures var row := Row(m.offers, h);
      Row(Next(m, Withdrawn(handle)).offers, h) ==
        if h != handle || row.None? then row
        else if row.value.state in {Fetching, Canceling} then Some(row.value.(state := Canceling, withdrawn := true))
        else if row.value.state.Saved? then Some(row.value.(withdrawn := true))
        else None
  {
    StepActsOnRows(m.offers, Withdraw(handle), h);
  }

  lemma ForgettingShows(m: Machine, remove: FileOffer -> bool, o: FileOffer)
    requires Inv(m)
    ensures o in Next(m, Forget(remove)).offers <==> o in m.offers && !remove(o)
  {
    WithoutIsExact(m.offers, remove, o);
  }

  // ------------------------------------------------------------ whole runs

  /** A successful preparation and then a verified end: the row is saved, as it stood. */
  lemma {:induction false} PreparedAndEndedIsSaved(before: seq<Step>, s: Step, o: FileOffer)
    requires LegalRun(OFF, before) && s.Prepared? && Reports(Run(OFF, before), s.callback, o)
    requires o.state.Fetching? && s.allowed(o) && !s.failed
    ensures var m := Next(Next(Run(OFF, before), s), Ended(o.handle, true));
      Row(m.offers, o.handle) == Some(o.(state := Saved)) && o.handle !in m.queued
  {
    var m := Run(OFF, before);
    OffKeepsInv();
    RunKeepsInv(OFF, before);
    PreparedStarts(m, s, o);
    StepKeepsInv(m, s);
    EndShows(Next(m, s), o, true);
  }

  /** The click and the preparation. */
  lemma ClickedIsFetched(m: Machine, o: FileOffer, path: Text, allowed: FileOffer -> bool, deleted: set<Text>)
    requires Inv(m) && path !in m.paths && CanStart(m, o.handle, allowed) && Row(m.offers, o.handle) == Some(o)
    requires allowed(o.(state := Fetching, destination := path, done := 0))
    ensures var cb := Callback(m.generation, o.handle, path);
      var m2 := Next(Next(m, Download(o.handle, path, allowed)), Prepared(cb, deleted, false, allowed));
      && Inv(m2) && m2.fetches == m.fetches + [path] && o.handle in m2.queued && cb !in m2.pending
      && Row(m2.offers, o.handle) == Some(o.(state := Fetching, destination := path, done := 0))
  {
    var cb, started := Callback(m.generation, o.handle, path), o.(state := Fetching, destination := path, done := 0);
    var s1, s2 := Download(o.handle, path, allowed), Prepared(cb, deleted, false, allowed);
    ClickReserves(m, o.handle, path, allowed);
    StepKeepsInv(m, s1);
    PreparedStarts(Next(m, s1), s2, started);
    StepKeepsInv(Next(m, s1), s2);
  }

  /** The progress and the end. */
  lemma FetchedIsSaved(m: Machine, o: FileOffer)
    requires Inv(m) && Row(m.offers, o.handle) == Some(o) && o.handle in m.queued && o.state.Fetching? && o.done <= o.size
    ensures var m2 := Next(Next(m, Progressed(o.handle, o.size)), Ended(o.handle, true));
      && Row(m2.offers, o.handle) == Some(o.(state := Saved, done := o.size))
      && o.handle !in m2.queued && m2.pending == m.pending
  {
    ProgressShows(m, o.handle, o.size, o.handle);
    StepKeepsInv(m, Progressed(o.handle, o.size));
    EndShows(Next(m, Progressed(o.handle, o.size)), o.(done := o.size), true);
  }

  /**
   From any reachable state: a click on a row that can start, its preparation, its progress to the
   end and its verified end leave the file saved where the click said, with nothing pending for it.
   */
  lemma {:induction false} ClickedFileIsSaved(before: seq<Step>, o: FileOffer, path: Text,
    allowed: FileOffer -> bool, deleted: set<Text>)
    requires LegalRun(OFF, before) && path !in Run(OFF, before).paths
    requires CanStart(Run(OFF, before), o.handle, allowed) && Row(Run(OFF, before).offers, o.handle) == Some(o)
    requires allowed(o.(state := Fetching, destination := path, done := 0))
    ensures var m := Run(OFF, before);
      var cb := Callback(m.generation, o.handle, path);
      var m2 := Next(Next(m, Download(o.handle, path, allowed)), Prepared(cb, deleted, false, allowed));
      var m4 := Next(Next(m2, Progressed(o.handle, o.size)), Ended(o.handle, true));
      && m2.fetches == m.fetches + [path]
      && Row(m4.offers, o.handle) == Some(o.(state := Saved, destination := path, done := o.size))
      && o.handle !in m4.queued && cb !in m4.pending
  {
    var m := Run(OFF, before);
    OffKeepsInv();
    RunKeepsInv(OFF, before);
    ClickedIsFetched(m, o, path, allowed, deleted);
    var cb := Callback(m.generation, o.handle, path);
    var m2 := Next(Next(m, Download(o.handle, path, allowed)), Prepared(cb, deleted, false, allowed));
    FetchedIsSaved(m2, o.(state := Fetching, destination := path, done := 0));
  }

  /** The `i`-th fetch was started by a preparation that succeeded, of a click that came before it. */
  ghost predicate Wanted(steps: seq<Step>, j: nat, fetch: Text) {
    && j < |steps| && steps[j].Prepared? && !steps[j].failed && steps[j].callback.destination == fetch
    && exists k :: 0 <= k < j && Asked(steps[k], steps[j].callback)
  }

  predicate Asked(s: Step, cb: Callback) {
    s.Download? && s.handle == cb.handle && s.path == cb.destination
  }

  lemma {:induction false} PendingWasAsked(m: Machine, steps: seq<Step>, cb: Callback)
    requires cb in Run(m, steps).pending
    ensures cb in m.pending || exists k :: 0 <= k < |steps| && Asked(steps[k], cb)
    decreases |steps|
  {
    if steps != [] {
      var next := Next(m, steps[0]);
      PendingWasAsked(next, steps[1..], cb);
      if cb !in m.pending && cb in next.pending {
        assert Asked(steps[0], cb);
      } else if cb !in m.pending {
        var k :| 0 <= k < |steps[1..]| && Asked(steps[1..][k], cb);
        assert Asked(steps[k + 1], cb);
      }
    }
  }

  lemma {:induction false} RunSplits(m: Machine, steps: seq<Step>)
    requires steps != []
    ensures Run(m, steps) == Next(Run(m, steps[..|steps| - 1]), steps[|steps| - 1])
    decreases |steps|
  {
    if |steps| > 1 {
      RunSplits(Next(m, steps[0]), steps[1..]);
      assert steps[1..][..|steps| - 2] == steps[..|steps| - 1][1..];
    } else {
      assert steps[1..] == [] && steps[..0] == [];
    }
  }

  /** A step starts at most one fetch, and only a preparation that succeeded does. */
  lemma FetchesGrow(m: Machine, s: Step)
    ensures var next := Next(m, s);
      next.fetches == m.fetches
      || (s.Prepared? && !s.failed && s.callback in m.pending && next.fetches == m.fetches + [s.callback.destination])
  {
  }

  /** Nothing is fetched that nobody clicked on, or whose folder was not prepared. */
  lemma {:induction false} EveryFetchIsWanted(steps: seq<Step>, i: nat)
    requires i < |Run(OFF, steps).fetches|
    ensures exists j :: Wanted(steps, j, Run(OFF, steps).fetches[i])
    decreases |steps|
  {
    if steps != [] {
      var front, last := steps[..|steps| - 1], steps[|steps| - 1];
      var m := Run(OFF, front);
      var fetch := Run(OFF, steps).fetches[i];
      RunSplits(OFF, steps);
      FetchesGrow(m, last);
      if i < |m.fetches| {
        EveryFetchIsWanted(front, i);
        var j :| Wanted(front, j, m.fetches[i]);
        WantedLater(front, last, j, fetch);
        assert steps == front + [last];
      } else {
        PendingWasAsked(OFF, front, last.callback);
        var k :| 0 <= k < |front| && Asked(front[k], last.callback);
        assert Asked(steps[k], steps[|front|].callback);
        assert Wanted(steps, |front|, fetch);
      }
    }
  }

  lemma WantedLater(front: seq<Step>, last: Step, j: nat, fetch: Text)
    requires Wanted(front, j, fetch)
    ensures Wanted(front + [last], j, fetch)
  {
    var steps := front + [last];
    var k :| 0 <= k < j && Asked(front[k], front[j].callback);
    assert steps[j] == front[j] && Asked(steps[k], steps[j].callback);
  }

  /** Starting opens a new generation of handles, and only then are offers listed. */
  lemma StartOpens(m: Machine)
    ensures Next(m, Start).on && Next(m, Start).offers == m.offers
    ensures !m.on ==> Next(m, Start).generation == m.generation + 1 && Next(m, Start).used == {}
  {
  }

  lemma {:induction false} GenerationsGrow(m: Machine, steps: seq<Step>)
    ensures Run(m, steps).generation >= m.generation
    decreases |steps|
  {
    if steps != [] { GenerationsGrow(Next(m, steps[0]), steps[1..]); }
  }

  /** What was pending at a stop is stale ever after: whenever it reports, it changes nothing but what is pending. */
  lemma {:induction false} StoppedIsStale(before: seq<Step>, later: seq<Step>, s: Step)
    requires LegalRun(OFF, before) && s.Prepared? && s.callback in Run(OFF, before).pending
    ensures var m := Run(Next(Run(OFF, before), Stop), later);
      && s.callback.generation < m.generation
      && Next(m, s) == m.(pending := Next(m, s).pending)
  {
    var stopped := Next(Run(OFF, before), Stop);
    OffKeepsInv();
    RunKeepsInv(OFF, before);
    GenerationsGrow(stopped, later);
  }
}
