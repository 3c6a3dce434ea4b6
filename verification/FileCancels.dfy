/**
 What a cancel does, and that a fetch nobody cancels goes ahead (crates/lantern-core/src/node.rs:113-120,
 1887-1921): the flag is set, stays set, and is never set unasked.
 */
module FileCancels {
  import opened ByteStrings
  import opened Results
  import opened Utf8
  import opened FileJobs

  /** The step signals the job registered for `b`. */
  predicate Signals(m: Machine, s: Step, b: nat)
    requires Enabled(m, s) && b in m.jobs
  {
    match s
    case Cancels(blob) => b == blob
    case Closes => true
    case ForgetSignals(t) => b in m.tasks[t].removed
    case BlockSignals(t) => b in m.tasks[t].removed
    case BlockSweeps(t) => m.jobs[b].from == m.tasks[t].peer
    case _ => false
  }

  ghost predicate Asked(m: Machine, s: Step, id: nat)
    requires Enabled(m, s)
  {
    exists b | b in m.jobs :: m.jobs[b].id == id && Signals(m, s, b)
  }

  /** A step sets exactly the flags of the registered jobs it signals, and never clears one. */
  lemma FlagsExactly(m: Machine, s: Step, id: nat)
    requires Enabled(m, s)
    ensures id in Next(m, s).cancelled <==> id in m.cancelled || Asked(m, s, id)
  {
  }

  /** A cancel by the user sets its own job's flag and changes nothing else; without a job it changes nothing. */
  lemma CancelSetsOneFlag(m: Machine, blob: nat)
    ensures var next := Next(m, Cancels(blob));
      && next == m.(cancelled := next.cancelled)
      && forall id: nat :: id in next.cancelled <==> id in m.cancelled || (blob in m.jobs && m.jobs[blob].id == id)
  {
  }

  lemma {:induction false} FlagsStay(m: Machine, steps: seq<Step>, id: nat)
    requires IsRun(m, steps) && id in m.cancelled
    ensures id in Run(m, steps).cancelled
    decreases |steps|
  {
    if steps != [] {
      FlagsExactly(m, steps[0], id);
      FlagsStay(Next(m, steps[0]), steps[1..], id);
    }
  }

  /** In every run: the job registered when the cancel is taken has its flag from then on, whatever the threads do. */
  lemma {:induction false} CancelIsFinal(before: seq<Step>, blob: nat, later: seq<Step>)
    requires IsRun(OPENED, before) && blob in Run(OPENED, before).jobs
    requires IsRun(Next(Run(OPENED, before), Cancels(blob)), later)
    ensures var m := Run(OPENED, before);
      var id, after := m.jobs[blob].id, Run(Next(m, Cancels(blob)), later);
      && id in after.cancelled
      && (id in m.live && m.live[id] == blob)
      && (blob in after.jobs && after.jobs[blob].id == id ==> after.jobs[blob].id in after.cancelled)
  {
    var m := Run(OPENED, before);
    RunKeepsInv(OPENED, before);
    CancelSetsOneFlag(m, blob);
    FlagsStay(Next(m, Cancels(blob)), later, m.jobs[blob].id);
  }

  /** The `i`-th step asked for this job, when it was registered. */
  ghost predicate AskedAt(m: Machine, steps: seq<Step>, i: nat, id: nat)
    requires IsRun(m, steps)
    decreases |steps|
  {
    && i < |steps|
    && if i == 0 then Asked(m, steps[0], id) else AskedAt(Next(m, steps[0]), steps[1..], i - 1, id)
  }

  /** No download stops by itself: every flag was asked for while its job was registered. */
  lemma {:induction false} EveryFlagWasAsked(m: Machine, steps: seq<Step>, id: nat)
    requires IsRun(m, steps) && id in Run(m, steps).cancelled && id !in m.cancelled
    ensures exists i: nat :: AskedAt(m, steps, i, id)
    decreases |steps|
  {
    var next := Next(m, steps[0]);
    FlagsExactly(m, steps[0], id);
    if id in next.cancelled {
      assert AskedAt(m, steps, 0, id);
    } else {
      EveryFlagWasAsked(next, steps[1..], id);
      var i: nat :| AskedAt(next, steps[1..], i, id);
      assert AskedAt(m, steps, i + 1, id);
    }
  }

  // ------------------------------------------------------------ a fetch that nobody cancels

  /** Flags are only ever set for numbers already given out, and so are jobs registered. */
  ghost predicate NumbersOk(m: Machine) {
    (forall id: nat | id in m.cancelled :: id < m.nextJob) && forall b: nat | b in m.jobs :: b < m.nextBlob
  }

  lemma StepKeepsNumbersOk(m: Machine, s: Step)
    requires Inv(m) && NumbersOk(m) && Enabled(m, s)
    ensures NumbersOk(Next(m, s))
  {
    var next := Next(m, s);
    forall id: nat | id in next.cancelled ensures id < next.nextJob { FlagsExactly(m, s, id); }
    forall b: nat | b in next.jobs ensures b < next.nextBlob {
      if b !in m.jobs { assert b in m.blobs; }
    }
  }

  lemma {:induction false} RunKeepsNumbersOk(m: Machine, steps: seq<Step>)
    requires Inv(m) && NumbersOk(m) && IsRun(m, steps)
    ensures NumbersOk(Run(m, steps))
    decreases |steps|
  {
    if steps != [] {
      StepKeepsNumbersOk(m, steps[0]);
      StepKeepsInv(m, steps[0]);
      RunKeepsNumbersOk(Next(m, steps[0]), steps[1..]);
    }
  }

  /** What is asked of an offer: a name, fewer than 128 offers in all and 8 of the peer, and none of this file there. */
  ghost predicate OfferFits(m: Machine, peer: Peer, hash: Bytes, name: seq<Scalar>, room: nat) {
    && name != [] && |Encode(name)| <= 1024 && (forall i | 0 <= i < |name| :: !IsControl(name[i]))
    && |set b | b in m.blobs && m.blobs[b].from.Some?| < 128
    && |set b | b in m.blobs && m.blobs[b].from == Some(peer)| < 8
    && forall b | b in m.blobs :: m.blobs[b].from == Some(peer) && m.blobs[b].room == Some(room) ==> m.blobs[b].hash != Some(hash)
  }

  lemma OfferFitsExactly(m: Machine, peer: Peer, hash: Bytes, name: seq<Scalar>, room: nat)
    ensures OfferAllowed(m.blobs, room, peer, hash, name) <==> OfferFits(m, peer, hash, name, room)
  {
    assert Remote(m.blobs) == set b | b in m.blobs && m.blobs[b].from.Some?;
    assert OfferedBy(m.blobs, peer) == set b | b in m.blobs && m.blobs[b].from == Some(peer);
  }

  /** An offer of an unblocked peer is listed exactly if it fits. */
  lemma OfferIsListed(m: Machine, t: Thread, peer: Peer, hash: Bytes, size: nat, name: seq<Scalar>, room: nat)
    requires Inv(m) && t !in m.tasks && peer !in m.blocked && BlobsFree(m)
    ensures var s1, s2 := OfferReads(t, peer), OfferInserts(t, hash, size, name, room);
      && Enabled(m, s1) && Enabled(Next(m, s1), s2)
      && Next(Next(m, s1), s2) ==
        if OfferFits(m, peer, hash, name, room)
        then m.(blobs := m.blobs[m.nextBlob := Blob(Some(hash), size, name, Some(peer), Some(room))], nextBlob := m.nextBlob + 1)
        else m
  {
    OfferFitsExactly(m, peer, hash, name, room);
    assert m.tasks[t := Offering(peer)] - {t} == m.tasks;
  }

  /** What can be fetched is registered, with its flag clear, unless it already is or both permits are out. */
  lemma FetchIsRegistered(m: Machine, t: Thread, blob: nat, peer: Peer, full: bool)
    requires Inv(m) && NumbersOk(m) && t !in m.tasks && blob in m.blobs && m.blobs[blob].from == Some(peer)
    requires m.blobs[blob].hash.Some? && m.blobs[blob].size <= 16777216 && peer !in m.blocked
    ensures var s1, s2 := FetchReads(t, blob), FetchRegisters(t, full);
      && Enabled(m, s1) && Enabled(Next(m, s1), s2)
      && var after := Next(Next(m, s1), s2);
        if full || blob in m.jobs then after.jobs == m.jobs
        else
          && after.jobs == m.jobs[blob := Job(m.nextJob, peer)] && m.nextJob !in after.cancelled
          && after.tasks == m.tasks[t := Registered(blob, m.nextJob)]
  {
    var m1 := Next(m, FetchReads(t, blob));
    assert m1.tasks[t] == Fetching(blob, peer);
  }

  /** After an unblocking the peer's offers can be listed and fetched again. */
  lemma UnblockedPeerIsBack(m: Machine, peer: Peer, b: nat)
    requires Enabled(m, Unblocks(peer))
    ensures var next := Next(m, Unblocks(peer));
      && peer !in next.blocked && next.blobs == m.blobs && next.jobs == m.jobs
      && (b in m.blobs && m.blobs[b].from == Some(peer) && m.blobs[b].hash.Some? && m.blobs[b].size <= 16777216 ==> Fetchable(next, b))
  {
  }

  /**
   In any reachable state, with the write lock to be had: a file in bounds that an unblocked peer
   offers, where the offer fits, can be fetched, and its download is not cancelled.
   */
  lemma {:induction false} OfferedFileCanBeFetched(before: seq<Step>, t: Thread, peer: Peer,
    hash: Bytes, size: nat, name: seq<Scalar>, room: nat)
    requires IsRun(OPENED, before)
    requires var m := Run(OPENED, before);
      t !in m.tasks && peer !in m.blocked && BlobsFree(m) && OfferFits(m, peer, hash, name, room)
    requires size <= 16777216
    ensures var m := Run(OPENED, before);
      var s1, s2 := OfferReads(t, peer), OfferInserts(t, hash, size, name, room);
      var s3, s4 := FetchReads(t, m.nextBlob), FetchRegisters(t, false);
      && Enabled(m, s1) && Enabled(Next(m, s1), s2)
      && var listed := Next(Next(m, s1), s2);
      && Enabled(listed, s3) && Enabled(Next(listed, s3), s4)
      && var fetched := Next(Next(listed, s3), s4);
      && m.nextBlob in fetched.jobs && fetched.jobs[m.nextBlob].from == peer
      && fetched.jobs[m.nextBlob].id !in fetched.cancelled
  {
    var m := Run(OPENED, before);
    RunKeepsInv(OPENED, before);
    RunKeepsNumbersOk(OPENED, before);
    OfferIsListed(m, t, peer, hash, size, name, room);
    var s1, s2 := OfferReads(t, peer), OfferInserts(t, hash, size, name, room);
    var listed := Next(Next(m, s1), s2);
    StepKeepsInv(m, s1);
    StepKeepsInv(Next(m, s1), s2);
    FetchIsRegistered(listed, t, m.nextBlob, peer, false);
  }

  // ------------------------------------------------------------ removals

  /** A forget takes off exactly the remote offers it matches, a block exactly the peer's. */
  lemma RemovalsExactly(m: Machine, s: Step, b: nat)
    requires Enabled(m, s) && (s.ForgetRemoves? || s.BlockRemoves?)
    ensures var blob, next := m.blobs, Next(m, s).blobs;
      b in next <==>
        && b in blob
        && !(if s.ForgetRemoves? then blob[b].from.Some? && s.remove(blob[b]) else blob[b].from == Some(m.tasks[s.thread].peer))
    ensures b in Next(m, s).blobs ==> Next(m, s).blobs[b] == m.blobs[b]
    ensures Next(m, s).jobs == m.jobs && Next(m, s).blocked == m.blocked
  {
  }

  /** Blocking bars the peer at once, and nobody else. */
  lemma BlockingBars(m: Machine, t: Thread, peer: Peer, other: Peer)
    requires Enabled(m, Blocks(t, peer))
    ensures other in Next(m, Blocks(t, peer)).blocked <==> other == peer || other in m.blocked
  {
  }

  /** One's own blob is listed under the next number, and can be hashed but not fetched. */
  lemma OwnBlobShows(m: Machine, own: Blob, hash: Bytes, size: nat)
    requires Inv(m) && Enabled(m, AddsOwn(own))
    ensures var listed := Next(m, AddsOwn(own));
      && listed == m.(blobs := m.blobs[m.nextBlob := own], nextBlob := m.nextBlob + 1) && m.nextBlob !in m.blobs
      && Enabled(listed, Hashes(m.nextBlob, hash, size))
      && var hashed := Next(listed, Hashes(m.nextBlob, hash, size));
        hashed == listed.(blobs := m.blobs[m.nextBlob := own.(hash := Some(hash), size := size)])
        && !Fetchable(hashed, m.nextBlob)
  {
    var listed := Next(m, AddsOwn(own));
    assert listed.blobs[m.nextBlob := own.(hash := Some(hash), size := size)]
      == m.blobs[m.nextBlob := own.(hash := Some(hash), size := size)];
  }
}
