/**
 Bounded file downloads on the native side: registration, withdrawal, cancellation and blocking
 under locks (crates/lantern-core/src/node.rs:105-127, 199-211, 1887-1921 and
 crates/lantern-core/src/node/friends.rs:1314-1332).

 Threads interleave between their lock sections. A section under a mutex or a write lock is one
 step; a fetch or an offer that holds read locks keeps them over several steps, and whoever wants
 the write lock waits. That the two-permit semaphore refuses a fetch is a possible outcome of the
 registration step.
 */
module FileJobs {
  import opened ByteStrings
  import opened Results
  import Ranking
  import opened Utf8

  type Peer = Bytes
  type Thread = nat

  const MAX_FILE_BYTES := 16 * 1024 * 1024
  const MAX_OFFERS := 128
  const MAX_PEER_OFFERS := 8

  /** BlobState: `from` is the peer who offered it, None for our own. */
  datatype Blob = Blob(hash: Option<Bytes>, size: nat, name: seq<Scalar>, from: Option<Peer>, room: Option<nat>)

  /** An entry of file_jobs: the sender, and the channel its cancel flag travels on. */
  datatype Job = Job(id: nat, from: Peer)

  /** Where a call that takes more than one lock section stands. */
  datatype Task =
    | Fetching(blob: nat, from: Peer)
    | Registered(blob: nat, id: nat)
    | Offering(peer: Peer)
    | Forgetting(removed: set<nat>)
    | Blocking(peer: Peer)
    | BlockForgetting(peer: Peer, removed: set<nat>)
    | Sweeping(peer: Peer)

  predicate ReadsBlobs(task: Task) {
    task.Fetching? || task.Registered?
  }

  predicate ReadsBlocked(task: Task) {
    ReadsBlobs(task) || task.Offering?
  }

  /**
   `live` maps each FileJob that exists (and so each open receiver) to its blob. `forgotten` are
   the blobs removed by calls that have returned, `barred` the peers whose blocking has returned
   without an unblocking since it began; `undisturbed` are the blocking calls that can still say so.
   */
  datatype Machine = Machine(
    blobs: map<nat, Blob>, blocked: set<Peer>, jobs: map<nat, Job>, cancelled: set<nat>,
    live: map<nat, nat>, tasks: map<Thread, Task>, nextBlob: nat, nextJob: nat,
    forgotten: set<nat>, barred: set<Peer>, undisturbed: set<Thread>)

  const OPENED: Machine := Machine(map[], {}, map[], {}, map[], map[], 1, 0, {}, {}, {})

  predicate BlobsFree(m: Machine) {
    forall t | t in m.tasks :: !ReadsBlobs(m.tasks[t])
  }

  predicate BlockedFree(m: Machine) {
    forall t | t in m.tasks :: !ReadsBlocked(m.tasks[t])
  }

  // ------------------------------------------------------------ the lock sections

  predicate Fetchable(m: Machine, blob: nat) {
    && blob in m.blobs && m.blobs[blob].hash.Some? && m.blobs[blob].from.Some?
    && m.blobs[blob].size <= MAX_FILE_BYTES && m.blobs[blob].from.value !in m.blocked
  }

  function Remote(blobs: map<nat, Blob>): set<nat> {
    set b | b in blobs && blobs[b].from.Some?
  }

  function OfferedBy(blobs: map<nat, Blob>, peer: Peer): set<nat> {
    set b | b in blobs && blobs[b].from == Some(peer)
  }

  predicate NameOk(name: seq<Scalar>) {
    name != [] && |Encode(name)| <= 1024 && forall i | 0 <= i < |name| :: !IsControl(name[i])
  }

  /** remote_offer_allowed */
  predicate OfferAllowed(blobs: map<nat, Blob>, room: nat, from: Peer, hash: Bytes, name: seq<Scalar>) {
    && NameOk(name) && |Remote(blobs)| < MAX_OFFERS && |OfferedBy(blobs, from)| < MAX_PEER_OFFERS
    && forall b | b in blobs :: !(blobs[b].from == Some(from) && blobs[b].room == Some(room) && blobs[b].hash == Some(hash))
  }

  function Matching(blobs: map<nat, Blob>, remove: Blob -> bool): set<nat> {
    set b | b in blobs && blobs[b].from.Some? && remove(blobs[b])
  }

  function FromPeer(peer: Peer): Blob -> bool {
    (b: Blob) => b.from == Some(peer)
  }

  /** The cancel flags set when these blobs' jobs are signalled. */
  function Signalled(jobs: map<nat, Job>, removed: set<nat>): set<nat> {
    set b | b in jobs && b in removed :: jobs[b].id
  }

  function SentBy(jobs: map<nat, Job>, peer: Peer): set<nat> {
    set b | b in jobs && jobs[b].from == peer :: jobs[b].id
  }

  datatype Step =
    | FetchReads(thread: Thread, blob: nat)
    | FetchRegisters(thread: Thread, full: bool)
    | FetchReleases(thread: Thread)
    | JobDrops(id: nat)
    | Cancels(blob: nat)
    | Closes
    | ForgetRemoves(thread: Thread, remove: Blob -> bool)
    | ForgetSignals(thread: Thread)
    | OfferReads(thread: Thread, peer: Peer)
    | OfferInserts(thread: Thread, hash: Bytes, size: nat, name: seq<Scalar>, room: nat)
    | AddsOwn(own: Blob)
    | Hashes(blob: nat, hash: Bytes, size: nat)
    | Blocks(thread: Thread, peer: Peer)
    | BlockRemoves(thread: Thread)
    | BlockSignals(thread: Thread)
    | BlockSweeps(thread: Thread)
    | Unblocks(peer: Peer)

  /** The step's thread stands at this point, and the locks it needs can be had. */
  predicate Enabled(m: Machine, s: Step) {
    match s
    case FetchReads(t, blob) => t !in m.tasks && Fetchable(m, blob)
    case FetchRegisters(t, _) => t in m.tasks && m.tasks[t].Fetching?
    case FetchReleases(t) => t in m.tasks && m.tasks[t].Registered?
    case JobDrops(id) => id in m.live && forall t | t in m.tasks :: m.tasks[t].Registered? ==> m.tasks[t].id != id
    case Cancels(_) => true
    case Closes => true
    case ForgetRemoves(t, _) => t !in m.tasks && BlobsFree(m)
    case ForgetSignals(t) => t in m.tasks && m.tasks[t].Forgetting?
    case OfferReads(t, peer) => t !in m.tasks && peer !in m.blocked
    case OfferInserts(t, _, _, _, _) => t in m.tasks && m.tasks[t].Offering? && BlobsFree(m)
    case AddsOwn(own) => own.from.None? && BlobsFree(m)
    case Hashes(blob, _, _) => blob in m.blobs && m.blobs[blob].from.None? && BlobsFree(m)
    case Blocks(t, _) => t !in m.tasks && BlockedFree(m)
    case BlockRemoves(t) => t in m.tasks && m.tasks[t].Blocking? && BlobsFree(m)
    case BlockSignals(t) => t in m.tasks && m.tasks[t].BlockForgetting?
    case BlockSweeps(t) => t in m.tasks && m.tasks[t].Sweeping?
    case Unblocks(_) => BlockedFree(m)
  }

  predicate IsBlocking(task: Task, peer: Peer) {
    (task.Blocking? || task.BlockForgetting? || task.Sweeping?) && task.peer == peer
  }

  function Next(m: Machine, s: Step): Machine
    requires Enabled(m, s)
  {
    match s
    case FetchReads(t, blob) => m.(tasks := m.tasks[t := Fetching(blob, m.blobs[blob].from.value)])
    case FetchRegisters(t, full) =>
      var task := m.tasks[t];
      if full || task.blob in m.jobs then m.(tasks := m.tasks - {t})
      else
        m.(jobs := m.jobs[task.blob := Job(m.nextJob, task.from)], live := m.live[m.nextJob := task.blob],
           nextJob := m.nextJob + 1, tasks := m.tasks[t := Registered(task.blob, m.nextJob)])
    case FetchReleases(t) => m.(tasks := m.tasks - {t})
    case JobDrops(id) => m.(jobs := m.jobs - {m.live[id]}, live := m.live - {id})
    case Cancels(blob) => if blob in m.jobs then m.(cancelled := m.cancelled + {m.jobs[blob].id}) else m
    case Closes => m.(cancelled := m.cancelled + Signalled(m.jobs, m.jobs.Keys))
    case ForgetRemoves(t, remove) =>
      var removed := Matching(m.blobs, remove);
      m.(blobs := m.blobs - removed, tasks := m.tasks[t := Forgetting(removed)])
    case ForgetSignals(t) =>
      var removed := m.tasks[t].removed;
      m.(cancelled := m.cancelled + Signalled(m.jobs, removed), tasks := m.tasks - {t}, forgotten := m.forgotten + removed)
    case OfferReads(t, peer) => m.(tasks := m.tasks[t := Offering(peer)])
    case OfferInserts(t, hash, size, name, room) =>
      var done := m.(tasks := m.tasks - {t});
      if !OfferAllowed(m.blobs, room, m.tasks[t].peer, hash, name) then done
      else
        var blob := Blob(Some(hash), size, name, Some(m.tasks[t].peer), Some(room));
        done.(blobs := m.blobs[m.nextBlob := blob], nextBlob := m.nextBlob + 1)
    case AddsOwn(own) => m.(blobs := m.blobs[m.nextBlob := own], nextBlob := m.nextBlob + 1)
    case Hashes(blob, hash, size) => m.(blobs := m.blobs[blob := m.blobs[blob].(hash := Some(hash), size := size)])
    case Blocks(t, peer) =>
      m.(blocked := m.blocked + {peer}, tasks := m.tasks[t := Blocking(peer)], undisturbed := m.undisturbed + {t})
    case BlockRemoves(t) =>
      var removed := Matching(m.blobs, FromPeer(m.tasks[t].peer));
      m.(blobs := m.blobs - removed, tasks := m.tasks[t := BlockForgetting(m.tasks[t].peer, removed)])
    case BlockSignals(t) =>
      var removed := m.tasks[t].removed;
      m.(cancelled := m.cancelled + Signalled(m.jobs, removed), tasks := m.tasks[t := Sweeping(m.tasks[t].peer)],
         forgotten := m.forgotten + removed)
    case BlockSweeps(t) =>
      var peer := m.tasks[t].peer;
      m.(cancelled := m.cancelled + SentBy(m.jobs, peer), tasks := m.tasks - {t}, undisturbed := m.undisturbed - {t},
         barred := if t in m.undisturbed then m.barred + {peer} else m.barred)
    case Unblocks(peer) =>
      m.(blocked := m.blocked - {peer}, barred := m.barred - {peer},
         undisturbed := set t | t in m.undisturbed && t in m.tasks && !IsBlocking(m.tasks[t], peer))
  }

  // ------------------------------------------------------------ the invariant

  /** Every entry belongs to one living job, and every living job has its entry. */
  ghost predicate JobsOk(m: Machine) {
    && (forall b | b in m.jobs :: m.jobs[b].id in m.live && m.live[m.jobs[b].id] == b)
    && (forall id | id in m.live :: id < m.nextJob && m.live[id] in m.jobs && m.jobs[m.live[id]].id == id)
  }

  /** While a fetch holds its read locks, the offer it read stays. */
  ghost predicate FetchesOk(m: Machine) {
    forall t | t in m.tasks && m.tasks[t].Fetching? ::
      && m.tasks[t].blob in m.blobs && m.blobs[m.tasks[t].blob].from == Some(m.tasks[t].from)
      && m.tasks[t].from !in m.blocked
  }

  ghost predicate OffersOk(m: Machine) {
    && (forall b | b in m.blobs :: b < m.nextBlob)
    && forall t | t in m.tasks && m.tasks[t].Offering? :: m.tasks[t].peer !in m.blocked
  }

  predicate Gone(m: Machine, b: nat) {
    b < m.nextBlob && b !in m.blobs
  }

  predicate Stopped(m: Machine, b: nat) {
    b in m.jobs ==> m.jobs[b].id in m.cancelled
  }

  ghost predicate ForgettingOk(m: Machine) {
    && (forall b | b in m.forgotten :: Gone(m, b) && Stopped(m, b))
    && (forall t, b | t in m.tasks && (m.tasks[t].Forgetting? || m.tasks[t].BlockForgetting?) && b in m.tasks[t].removed :: Gone(m, b))
  }

  /** Nothing of the peer's is left to fetch. */
  predicate NoOffers(m: Machine, peer: Peer) {
    peer in m.blocked && forall b | b in m.blobs :: m.blobs[b].from != Some(peer)
  }

  predicate Quiet(m: Machine, peer: Peer) {
    NoOffers(m, peer) && forall b | b in m.jobs && m.jobs[b].from == peer :: m.jobs[b].id in m.cancelled
  }

  ghost predicate BlockingOk(m: Machine) {
    && (forall peer | peer in m.barred :: Quiet(m, peer))
    && (forall t | t in m.undisturbed ::
          && t in m.tasks && (m.tasks[t].Blocking? || m.tasks[t].BlockForgetting? || m.tasks[t].Sweeping?)
          && m.tasks[t].peer in m.blocked
          && (!m.tasks[t].Blocking? ==> NoOffers(m, m.tasks[t].peer)))
  }

  ghost predicate Inv(m: Machine) {
    JobsOk(m) && FetchesOk(m) && OffersOk(m) && ForgettingOk(m) && BlockingOk(m)
  }

  lemma JobsKept(m: Machine, s: Step)
    requires JobsOk(m) && Enabled(m, s)
    ensures JobsOk(Next(m, s))
  {
  }

  lemma FetchesKept(m: Machine, s: Step)
    requires FetchesOk(m) && OffersOk(m) && Enabled(m, s)
    ensures FetchesOk(Next(m, s))
  {
  }

  lemma OffersKept(m: Machine, s: Step)
    requires OffersOk(m) && Enabled(m, s)
    ensures OffersOk(Next(m, s))
  {
  }

  /** A blob that is gone stays gone, and is not registered again. */
  lemma GoneStaysGone(m: Machine, s: Step, b: nat)
    requires FetchesOk(m) && OffersOk(m) && Enabled(m, s) && Gone(m, b)
    ensures Gone(Next(m, s), b)
    ensures b in Next(m, s).jobs ==> b in m.jobs && Next(m, s).jobs[b] == m.jobs[b]
  {
  }

  lemma ForgettingKept(m: Machine, s: Step)
    requires Inv(m) && Enabled(m, s)
    ensures ForgettingOk(Next(m, s))
  {
    var next := Next(m, s);
    forall b | b in next.forgotten ensures Gone(next, b) && Stopped(next, b) {
      if b !in m.forgotten { assert Gone(m, b); }
      GoneStaysGone(m, s, b);
      assert m.cancelled <= next.cancelled;
      if b in m.jobs && b !in m.forgotten { assert m.jobs[b].id in Signalled(m.jobs, m.tasks[s.thread].removed); }
    }
    forall t, b | t in next.tasks && (next.tasks[t].Forgetting? || next.tasks[t].BlockForgetting?) && b in next.tasks[t].removed
      ensures Gone(next, b)
    {
      if t in m.tasks && next.tasks[t] == m.tasks[t] {
        assert Gone(m, b);
        GoneStaysGone(m, s, b);
      }
    }
  }

  /** With nothing on offer from a peer that stays blocked, nothing new of it is offered or registered. */
  lemma NoOffersKept(m: Machine, s: Step, peer: Peer)
    requires FetchesOk(m) && OffersOk(m) && Enabled(m, s) && NoOffers(m, peer) && peer in Next(m, s).blocked
    ensures NoOffers(Next(m, s), peer)
  {
  }

  lemma NoJobAdded(m: Machine, s: Step, peer: Peer, b: nat)
    requires FetchesOk(m) && Enabled(m, s) && NoOffers(m, peer) && peer in Next(m, s).blocked
    requires b in Next(m, s).jobs && Next(m, s).jobs[b].from == peer
    ensures b in m.jobs && m.jobs[b] == Next(m, s).jobs[b]
  {
  }

  lemma BarredKept(m: Machine, s: Step, peer: Peer)
    requires Inv(m) && Enabled(m, s) && peer in Next(m, s).barred
    ensures Quiet(Next(m, s), peer)
  {
    var next := Next(m, s);
    assert NoOffers(m, peer) && peer in next.blocked;
    NoOffersKept(m, s, peer);
    forall b | b in next.jobs && next.jobs[b].from == peer ensures next.jobs[b].id in next.cancelled {
      NoJobAdded(m, s, peer, b);
      if peer !in m.barred { assert m.jobs[b].id in SentBy(m.jobs, peer); }
    }
  }

  lemma BlockingKept(m: Machine, s: Step)
    requires Inv(m) && Enabled(m, s)
    ensures BlockingOk(Next(m, s))
  {
    var next := Next(m, s);
    forall peer | peer in next.barred ensures Quiet(next, peer) { BarredKept(m, s, peer); }
    forall t | t in next.undisturbed
      ensures t in next.tasks && (next.tasks[t].Blocking? || next.tasks[t].BlockForgetting? || next.tasks[t].Sweeping?)
      ensures next.tasks[t].peer in next.blocked
      ensures !next.tasks[t].Blocking? ==> NoOffers(next, next.tasks[t].peer)
    {
      if t in m.undisturbed && !m.tasks[t].Blocking? { NoOffersKept(m, s, m.tasks[t].peer); }
    }
  }

  // ------------------------------------------------------------ how much is on offer

  ghost predicate Distinct(blobs: map<nat, Blob>) {
    forall a, b | a in blobs && b in blobs && a != b && blobs[a].from.Some? && blobs[a].hash.Some? ::
      blobs[a].from == blobs[b].from && blobs[a].room == blobs[b].room ==> blobs[a].hash != blobs[b].hash
  }

  ghost predicate OffersBounded(blobs: map<nat, Blob>) {
    && |Remote(blobs)| <= MAX_OFFERS && Distinct(blobs)
    && forall peer: Peer :: |OfferedBy(blobs, peer)| <= MAX_PEER_OFFERS
  }

  lemma RemoteGrows(blobs: map<nat, Blob>, key: nat, blob: Blob)
    requires key !in blobs && blob.from.Some?
    ensures |Remote(blobs[key := blob])| == |Remote(blobs)| + 1
  {
    assert Remote(blobs[key := blob]) == Remote(blobs) + {key};
  }

  lemma OfferedByGrows(blobs: map<nat, Blob>, key: nat, blob: Blob, peer: Peer)
    requires key !in blobs
    ensures |OfferedBy(blobs[key := blob], peer)| == |OfferedBy(blobs, peer)| + if blob.from == Some(peer) then 1 else 0
  {
    if blob.from == Some(peer) {
      assert OfferedBy(blobs[key := blob], peer) == OfferedBy(blobs, peer) + {key};
    } else {
      assert OfferedBy(blobs[key := blob], peer) == OfferedBy(blobs, peer);
    }
  }

  lemma InsertionBounded(blobs: map<nat, Blob>, key: nat, room: nat, from: Peer, hash: Bytes, size: nat, name: seq<Scalar>)
    requires OffersBounded(blobs) && key !in blobs && OfferAllowed(blobs, room, from, hash, name)
    ensures OffersBounded(blobs[key := Blob(Some(hash), size, name, Some(from), Some(room))])
  {
    var blob := Blob(Some(hash), size, name, Some(from), Some(room));
    var more := blobs[key := blob];
    RemoteGrows(blobs, key, blob);
    forall peer: Peer ensures |OfferedBy(more, peer)| <= MAX_PEER_OFFERS {
      OfferedByGrows(blobs, key, blob, peer);
    }
  }

  /** At most 128 remote offers, at most 8 from one peer, and no file offered twice by one peer in one room. */
  lemma OffersStayBounded(m: Machine, s: Step)
    requires OffersBounded(m.blobs) && OffersOk(m) && Enabled(m, s)
    ensures OffersBounded(Next(m, s).blobs)
  {
    if s.OfferInserts? && OfferAllowed(m.blobs, s.room, m.tasks[s.thread].peer, s.hash, s.name) {
      InsertionBounded(m.blobs, m.nextBlob, s.room, m.tasks[s.thread].peer, s.hash, s.size, s.name);
    } else {
      var blobs := Next(m, s).blobs;
      Ranking.SubsetSize(Remote(blobs), Remote(m.blobs));
      forall peer: Peer ensures |OfferedBy(blobs, peer)| <= MAX_PEER_OFFERS {
        Ranking.SubsetSize(OfferedBy(blobs, peer), OfferedBy(m.blobs, peer));
      }
    }
  }

  // ------------------------------------------------------------ runs

  lemma StepKeepsInv(m: Machine, s: Step)
    requires Inv(m) && Enabled(m, s)
    ensures Inv(Next(m, s))
  {
    JobsKept(m, s);
    FetchesKept(m, s);
    OffersKept(m, s);
    ForgettingKept(m, s);
    BlockingKept(m, s);
  }

  predicate IsRun(m: Machine, steps: seq<Step>)
    decreases |steps|
  {
    steps == [] || (Enabled(m, steps[0]) && IsRun(Next(m, steps[0]), steps[1..]))
  }

  function Run(m: Machine, steps: seq<Step>): Machine
    requires IsRun(m, steps)
    decreases |steps|
  {
    if steps == [] then m else Run(Next(m, steps[0]), steps[1..])
  }

  lemma {:induction false} RunKeepsInv(m: Machine, steps: seq<Step>)
    requires Inv(m) && IsRun(m, steps)
    ensures Inv(Run(m, steps))
    decreases |steps|
  {
    if steps != [] {
      StepKeepsInv(m, steps[0]);
      RunKeepsInv(Next(m, steps[0]), steps[1..]);
    }
  }

  lemma {:induction false} RunStaysBounded(m: Machine, steps: seq<Step>)
    requires OffersBounded(m.blobs) && OffersOk(m) && IsRun(m, steps)
    ensures OffersBounded(Run(m, steps).blobs)
    decreases |steps|
  {
    if steps != [] {
      OffersStayBounded(m, steps[0]);
      OffersKept(m, steps[0]);
      RunStaysBounded(Next(m, steps[0]), steps[1..]);
    }
  }

  lemma {:induction false} ForgottenForGood(m: Machine, steps: seq<Step>, b: nat)
    requires Inv(m) && IsRun(m, steps) && b in m.forgotten
    ensures var after := Run(m, steps);
      && b !in after.blobs
      && (b in after.jobs ==> after.jobs[b].id in after.cancelled)
      && (b in after.jobs ==> b in m.jobs && after.jobs[b] == m.jobs[b])
    decreases |steps|
  {
    if steps != [] {
      StepKeepsInv(m, steps[0]);
      GoneStaysGone(m, steps[0], b);
      ForgottenForGood(Next(m, steps[0]), steps[1..], b);
    }
  }

  predicate Returns(s: Step, thread: Thread) {
    s.ForgetSignals? && s.thread == thread
  }

  /** Whatever other threads do, a call to forget keeps what it has removed in mind until it signals. */
  lemma {:induction false} StillForgetting(m: Machine, steps: seq<Step>, thread: Thread, removed: set<nat>)
    requires IsRun(m, steps) && thread in m.tasks && m.tasks[thread] == Forgetting(removed)
    requires forall i | 0 <= i < |steps| :: !Returns(steps[i], thread)
    ensures thread in Run(m, steps).tasks && Run(m, steps).tasks[thread] == Forgetting(removed)
    decreases |steps|
  {
    if steps != [] { StillForgetting(Next(m, steps[0]), steps[1..], thread, removed); }
  }

  /**
   A call to forget, from taking offers out to signalling their jobs and on, in every interleaving:
   once it has returned, a blob it matched is not on offer, a job still registered for it has its
   cancel flag, and nothing later registers it again.
   */
  lemma {:induction false} ForgottenStaysStopped(
    before: seq<Step>, thread: Thread, remove: Blob -> bool, between: seq<Step>, later: seq<Step>, b: nat,
    start: Machine, waiting: Machine)
    requires IsRun(OPENED, before) && start == Run(OPENED, before)
    requires Enabled(start, ForgetRemoves(thread, remove)) && b in Matching(start.blobs, remove)
    requires IsRun(Next(start, ForgetRemoves(thread, remove)), between)
    requires forall i | 0 <= i < |between| :: !Returns(between[i], thread)
    requires waiting == Run(Next(start, ForgetRemoves(thread, remove)), between)
    ensures Enabled(waiting, ForgetSignals(thread))
    ensures var returned := Next(waiting, ForgetSignals(thread));
      IsRun(returned, later) ==>
        var after := Run(returned, later);
        && b !in after.blobs
        && (b in after.jobs ==> after.jobs[b].id in after.cancelled)
        && (b in after.jobs ==> b in returned.jobs && after.jobs[b] == returned.jobs[b])
  {
    var removes := ForgetRemoves(thread, remove);
    RunKeepsInv(OPENED, before);
    StepKeepsInv(start, removes);
    RunKeepsInv(Next(start, removes), between);
    StillForgetting(Next(start, removes), between, thread, Matching(start.blobs, remove));
    StepKeepsInv(waiting, ForgetSignals(thread));
    var returned := Next(waiting, ForgetSignals(thread));
    if IsRun(returned, later) { ForgottenForGood(returned, later, b); }
  }

  /** A dropped job removes its own entry and nothing else. */
  lemma {:induction false} DropRemovesOwnEntry(steps: seq<Step>, id: nat)
    requires IsRun(OPENED, steps) && Enabled(Run(OPENED, steps), JobDrops(id))
    ensures var m := Run(OPENED, steps);
      && m.live[id] in m.jobs && m.jobs[m.live[id]].id == id
      && Next(m, JobDrops(id)).jobs == map b | b in m.jobs && m.jobs[b].id != id :: m.jobs[b]
  {
    RunKeepsInv(OPENED, steps);
    var m := Run(OPENED, steps);
    assert forall b | b in m.jobs :: m.jobs[b].id == id ==> b == m.live[id];
  }

  /** Cancelling a registered job always reaches it: its receiver is still open. */
  lemma {:induction false} CancelReachesItsJob(steps: seq<Step>, blob: nat)
    requires IsRun(OPENED, steps) && blob in Run(OPENED, steps).jobs
    ensures var m := Run(OPENED, steps);
      m.jobs[blob].id in m.live && m.live[m.jobs[blob].id] == blob
  {
    RunKeepsInv(OPENED, steps);
  }

  predicate UnblocksPeer(s: Step, peer: Peer) {
    s.Unblocks? && s.peer == peer
  }

  /** The blocking call is still at work, undisturbed, or it has returned and the peer is barred. */
  predicate BlockStands(m: Machine, thread: Thread, peer: Peer) {
    peer in m.barred || (thread in m.undisturbed && thread in m.tasks && IsBlocking(m.tasks[thread], peer))
  }

  lemma {:induction false} BlockKeepsStanding(m: Machine, steps: seq<Step>, thread: Thread, peer: Peer)
    requires IsRun(m, steps) && BlockStands(m, thread, peer)
    requires forall i | 0 <= i < |steps| :: !UnblocksPeer(steps[i], peer)
    ensures BlockStands(Run(m, steps), thread, peer)
    decreases |steps|
  {
    if steps != [] {
      var next := Next(m, steps[0]);
      assert BlockStands(next, thread, peer);
      BlockKeepsStanding(next, steps[1..], thread, peer);
    }
  }

  /**
   A call to block, from setting the flag on, in every interleaving without an unblocking of the
   peer: once the thread is out of the call, nothing the peer offered can be fetched or is being
   fetched, and every job for the peer has its cancel flag.
   */
  lemma {:induction false} BlockedPeerIsQuiet(before: seq<Step>, thread: Thread, peer: Peer, steps: seq<Step>, start: Machine, m: Machine)
    requires IsRun(OPENED, before) && start == Run(OPENED, before) && Enabled(start, Blocks(thread, peer))
    requires IsRun(Next(start, Blocks(thread, peer)), steps) && m == Run(Next(start, Blocks(thread, peer)), steps)
    requires forall i | 0 <= i < |steps| :: !UnblocksPeer(steps[i], peer)
    requires thread in m.tasks ==> !IsBlocking(m.tasks[thread], peer)
    ensures forall b | b in m.blobs :: m.blobs[b].from == Some(peer) ==> !Fetchable(m, b)
    ensures forall b | b in m.jobs && m.jobs[b].from == peer :: m.jobs[b].id in m.cancelled
    ensures forall t | t in m.tasks && m.tasks[t].Fetching? :: m.tasks[t].from != peer
  {
    RunKeepsInv(OPENED, before);
    StepKeepsInv(start, Blocks(thread, peer));
    RunKeepsInv(Next(start, Blocks(thread, peer)), steps);
    BlockKeepsStanding(Next(start, Blocks(thread, peer)), steps, thread, peer);
    assert peer in m.barred;
  }

  // ------------------------------------------------------------ the shared state

  class Shared {
    var blobs: map<nat, Blob>
    var blocked: set<Peer>
    var fileJobs: map<nat, Job>
    var cancelled: set<nat>
    var live: map<nat, nat>
    var nextBlob: nat
    var nextJob: nat
    ghost var tasks: map<Thread, Task>
    ghost var forgotten: set<nat>
    ghost var barred: set<Peer>
    ghost var undisturbed: set<Thread>

    ghost function State(): Machine
      reads this
    {
      Machine(blobs, blocked, fileJobs, cancelled, live, tasks, nextBlob, nextJob, forgotten, barred, undisturbed)
    }

    constructor ()
      ensures State() == OPENED
    {
      blobs, blocked, fileJobs, cancelled, live := map[], {}, map[], {}, map[];
      nextBlob, nextJob := 1, 0;
      tasks, forgotten, barred, undisturbed := map[], {}, {}, {};
    }

    /** forget_remote_blobs while it holds the write lock. */
    method ForgetRemoves(ghost thread: Thread, remove: Blob -> bool) returns (handles: set<nat>)
      requires Enabled(State(), Step.ForgetRemoves(thread, remove))
      modifies this
      ensures State() == Next(old(State()), Step.ForgetRemoves(thread, remove))
      ensures handles == Matching(old(blobs), remove)
    {
      handles := Matching(blobs, remove);
      var rest := handles;
      while rest != {}
        invariant rest <= handles && blobs == old(blobs) - (handles - rest)
        invariant State() == old(State()).(blobs := blobs)
        decreases |rest|
      {
        var handle :| handle in rest;
        blobs := blobs - {handle};
        rest := rest - {handle};
      }
      tasks := tasks[thread := Forgetting(handles)];
    }

    /** forget_remote_blobs while it holds the jobs lock. */
    method ForgetSignals(ghost thread: Thread, handles: set<nat>)
      requires Enabled(State(), Step.ForgetSignals(thread)) && tasks[thread].removed == handles
      modifies this
      ensures State() == Next(old(State()), Step.ForgetSignals(thread))
    {
      var ids := Signals(fileJobs, handles);
      cancelled := cancelled + ids;
      tasks, forgotten := tasks - {thread}, forgotten + handles;
    }

    /** blob_fetch_bounded up to its permit, with both read locks taken. */
    method FetchReads(ghost thread: Thread, blob: nat) returns (r: Result<Blob>)
      requires thread !in tasks
      modifies this`tasks
      ensures r.Ok? <==> Fetchable(old(State()), blob)
      ensures r.Ok? ==> r.value == blobs[blob]
      ensures r.Err? ==> (r.error.NotFound? <==> blob !in blobs)
      ensures r.Err? ==>
        (r.error.BadArgument? <==>
          blob in blobs && blobs[blob].hash.Some? && blobs[blob].from.Some? && blobs[blob].size > MAX_FILE_BYTES)
      ensures r.Err? ==> r.error in {NotFound, BadArgument, BadState}
      ensures State() == if r.Ok? then Next(old(State()), Step.FetchReads(thread, blob)) else old(State())
    {
      if blob !in blobs { return Err(NotFound); }
      var state := blobs[blob];
      if state.hash.None? || state.from.None? { return Err(BadState); }
      if state.size > MAX_FILE_BYTES { return Err(BadArgument); }
      if state.from.value in blocked { return Err(BadState); }
      tasks := tasks[thread := Fetching(blob, state.from.value)];
      r := Ok(state);
    }

    /** The permit and the jobs lock; the sender and the job's number if it was registered. */
    method FetchRegisters(ghost thread: Thread, blob: nat, from: Peer, full: bool) returns (r: Result<nat>)
      requires thread in tasks && tasks[thread] == Fetching(blob, from)
      modifies this
      ensures State() == Next(old(State()), Step.FetchRegisters(thread, full))
      ensures r == if full then Err(Full) else if blob in old(fileJobs) then Err(BadState) else Ok(old(nextJob))
    {
      if full {
        tasks := tasks - {thread};
        return Err(Full);
      }
      if blob in fileJobs {
        tasks := tasks - {thread};
        return Err(BadState);
      }
      fileJobs, live, nextJob := fileJobs[blob := Job(nextJob, from)], live[nextJob := blob], nextJob + 1;
      tasks := tasks[thread := Registered(blob, nextJob - 1)];
      r := Ok(nextJob - 1);
    }

    /** FileJob::drop */
    method Drop(id: nat)
      requires Enabled(State(), JobDrops(id))
      modifies this
      ensures State() == Next(old(State()), JobDrops(id))
    {
      fileJobs := fileJobs - {live[id]};
      live := live - {id};
    }

    method BlobCancelBounded(blob: nat) returns (r: Result<bool>)
      modifies this
      ensures State() == Next(old(State()), Cancels(blob))
      ensures r == if blob in fileJobs then Ok(true) else Err(NotFound)
    {
      if blob !in fileJobs { return Err(NotFound); }
      cancelled := cancelled + {fileJobs[blob].id};
      r := Ok(true);
    }

    /** The end of block: every job of the sender, found by sender. */
    method BlockSweeps(ghost thread: Thread, peer: Peer)
      requires thread in tasks && tasks[thread] == Sweeping(peer)
      modifies this
      ensures State() == Next(old(State()), Step.BlockSweeps(thread))
    {
      var handles := JobsFrom(fileJobs, peer);
      var ids := Signals(fileJobs, handles);
      SweepSignals(State(), thread, peer);
      cancelled := cancelled + ids;
      barred := if thread in undisturbed then barred + {peer} else barred;
      tasks, undisturbed := tasks - {thread}, undisturbed - {thread};
    }
  }

  function JobsFrom(jobs: map<nat, Job>, peer: Peer): set<nat> {
    set b | b in jobs && jobs[b].from == peer
  }

  lemma SweepSignals(m: Machine, thread: Thread, peer: Peer)
    requires thread in m.tasks && m.tasks[thread] == Sweeping(peer)
    ensures Next(m, BlockSweeps(thread)) ==
      m.(cancelled := m.cancelled + Signalled(m.jobs, JobsFrom(m.jobs, peer)), tasks := m.tasks - {thread},
         barred := if thread in m.undisturbed then m.barred + {peer} else m.barred,
         undisturbed := m.undisturbed - {thread})
  {
    assert Signalled(m.jobs, JobsFrom(m.jobs, peer)) == SentBy(m.jobs, peer);
  }

  /** Sends on the channel of every one of these blobs that has a job. */
  method Signals(jobs: map<nat, Job>, handles: set<nat>) returns (ids: set<nat>)
    ensures ids == Signalled(jobs, handles)
  {
    ids := {};
    var rest := handles;
    while rest != {}
      invariant rest <= handles && ids == Signalled(jobs, handles - rest)
      decreases |rest|
    {
      var handle :| handle in rest;
      SignalOne(jobs, handles - rest, handle);
      assert handles - (rest - {handle}) == (handles - rest) + {handle};
      if handle in jobs { ids := ids + {jobs[handle].id}; }
      rest := rest - {handle};
    }
    assert handles - rest == handles;
  }

  lemma SignalOne(jobs: map<nat, Job>, done: set<nat>, handle: nat)
    ensures Signalled(jobs, done + {handle}) == Signalled(jobs, done) + if handle in jobs then {jobs[handle].id} else {}
  {
    if handle in jobs { assert jobs[handle].id in Signalled(jobs, done + {handle}); }
    forall id | id in Signalled(jobs, done) ensures id in Signalled(jobs, done + {handle}) {
      var b :| b in jobs && b in done && jobs[b].id == id;
      assert b in done + {handle};
    }
  }
}
