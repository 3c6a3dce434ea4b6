/**
 The bounded list of offered files and what each user or network step does to it
 (src/XivLantern.Core/FileOffers.cs).

 Strings are UTF-16 code units. Parsing the metadata's JSON is the caller's parameter: the four
 fields, or None where the source returns false on their shape. So are the room, peer and offer
 checks, and the fresh file name of a fetch.
 */
module FileOffers {
  import opened HexText
  import opened Results
  import opened Utf8

  const MAX_BYTES := 16 * 1024 * 1024
  const CAPACITY := 128
  const PEER_CAPACITY := 8
  const CONCURRENT_FETCHES := 2

  datatype State = Offered | Fetching | Canceling | Canceled | Saved | Failed

  datatype FileOffer = FileOffer(
    handle: nat, room: nat, peer: Text, hash: Text, size: nat, name: Text,
    state: State, destination: Text, done: nat, withdrawn: bool)

  datatype Metadata = Metadata(room: nat, size: nat, hash: Text, name: Text)

  // ------------------------------------------------------------ names

  const SLASH := '/' as int
  const BACKSLASH := '\\' as int
  const DOT := '.' as int

  /** What follows the last directory separator of either platform. */
  function BaseName(name: Text): (r: Text)
    ensures forall i | 0 <= i < |r| :: r[i] != SLASH && r[i] != BACKSLASH && r[i] in name
  {
    if name == [] then []
    else
      var last := name[|name| - 1];
      if last == SLASH || last == BACKSLASH then [] else BaseName(name[..|name| - 1]) + [last]
  }

  /** char.IsWhiteSpace */
  predicate IsSpace(c: int) {
    9 <= c <= 13 || c == 32 || c == 0x85 || c == 0xA0 || c == 0x1680 || 0x2000 <= c <= 0x200A
    || c == 0x2028 || c == 0x2029 || c == 0x202F || c == 0x205F || c == 0x3000
  }

  predicate IsBlank(text: Text) {
    forall i | 0 <= i < |text| :: IsSpace(text[i])
  }

  predicate NameOk(name: Text) {
    1 <= |name| <= 256 && (forall i | 0 <= i < |name| :: !IsControl(name[i]))
    && !IsBlank(BaseName(name)) && BaseName(name) != [DOT] && BaseName(name) != [DOT, DOT]
  }

  // ------------------------------------------------------------ searching and counting

  /** The conditions the source searches and counts by. */
  datatype Query =
    | ByHandle(handle: nat)
    | Running(handle: nat)
    | Ending(handle: nat)
    | OfPeer(peer: Text)
    | OfFile(room: nat, peer: Text, hash: Text)
    | Slots

  predicate Busy(o: FileOffer) {
    o.state.Fetching? || o.state.Canceling?
  }

  predicate Matches(q: Query, o: FileOffer) {
    match q
    case ByHandle(h) => o.handle == h
    case Running(h) => o.handle == h && o.state.Fetching?
    case Ending(h) => o.handle == h && Busy(o)
    case OfPeer(p) => o.peer == p
    case OfFile(r, p, h) => o.room == r && o.peer == p && o.hash == h
    case Slots => Busy(o)
  }

  /** FindIndex: the first match, or -1. */
  function IndexOf(offers: seq<FileOffer>, q: Query): (i: int)
    ensures -1 <= i < |offers|
    ensures i >= 0 ==> Matches(q, offers[i])
    ensures i < 0 ==> forall j | 0 <= j < |offers| :: !Matches(q, offers[j])
  {
    if offers == [] then -1
    else
      var i := IndexOf(offers[..|offers| - 1], q);
      if i >= 0 then i else if Matches(q, offers[|offers| - 1]) then |offers| - 1 else -1
  }

  function Count(offers: seq<FileOffer>, q: Query): nat {
    if offers == [] then 0
    else Count(offers[..|offers| - 1], q) + if Matches(q, offers[|offers| - 1]) then 1 else 0
  }

  /** RemoveAll */
  function Without(offers: seq<FileOffer>, remove: FileOffer -> bool): seq<FileOffer> {
    if offers == [] then []
    else Without(offers[..|offers| - 1], remove) + if remove(offers[|offers| - 1]) then [] else [offers[|offers| - 1]]
  }

  function RemovedAt(offers: seq<FileOffer>, i: nat): seq<FileOffer>
    requires i < |offers|
  {
    offers[..i] + offers[i + 1..]
  }

  // ------------------------------------------------------------ the steps

  datatype Event =
    | Withdraw(handle: nat)
    | Add(handle: nat, peer: Text, metadata: Text, parse: Text -> Option<Metadata>,
          roomAllowed: nat -> bool, peerAllowed: Text -> bool)
    | BeginFetch(handle: nat, path: Text, allowed: FileOffer -> bool)
    | Progress(handle: nat, done: nat)
    | Complete(handle: nat, verified: bool)
    | CancelRequested(handle: nat)
    | RemoveWhere(remove: FileOffer -> bool)
    | Clear

  /** The row an offer adds, or None where it is refused. */
  function NewOffer(offers: seq<FileOffer>, e: Event): Option<FileOffer>
    requires e.Add?
  {
    if e.handle == 0 || !IsHash(e.peer) || |e.metadata| > 4096 || IndexOf(offers, ByHandle(e.handle)) >= 0 then None
    else
      var peer := Lower(e.peer);
      if !e.peerAllowed(peer) || |offers| >= CAPACITY || Count(offers, OfPeer(peer)) >= PEER_CAPACITY then None
      else
        match e.parse(e.metadata)
        case None => None
        case Some(m) =>
          if !e.roomAllowed(m.room) || m.size > MAX_BYTES || !IsHash(m.hash) || !NameOk(m.name) then None
          else
            var hash := Lower(m.hash);
            if IndexOf(offers, OfFile(m.room, peer, hash)) >= 0 then None
            else Some(FileOffer(e.handle, m.room, peer, hash, m.size, BaseName(m.name), Offered, [], 0, false))
  }

  predicate Fetchable(o: FileOffer) {
    o.state.Offered? || o.state.Failed? || o.state.Canceled?
  }

  predicate Begins(offers: seq<FileOffer>, handle: nat, allowed: FileOffer -> bool) {
    var i := IndexOf(offers, ByHandle(handle));
    && i >= 0 && Count(offers, Slots) < CONCURRENT_FETCHES && Fetchable(offers[i]) && allowed(offers[i])
  }

  predicate Progresses(offers: seq<FileOffer>, handle: nat, done: nat) {
    var i := IndexOf(offers, Running(handle));
    i >= 0 && offers[i].done <= done <= offers[i].size
  }

  function WithCancel(offers: seq<FileOffer>, handle: nat): seq<FileOffer> {
    var i := IndexOf(offers, Running(handle));
    if i < 0 then offers else offers[i := offers[i].(state := Canceling)]
  }

  function WithWithdrawal(offers: seq<FileOffer>, handle: nat): seq<FileOffer> {
    var i := IndexOf(offers, ByHandle(handle));
    if i < 0 then offers
    else if Busy(offers[i]) then offers[i := offers[i].(state := Canceling, withdrawn := true)]
    else if offers[i].state.Saved? then offers[i := offers[i].(withdrawn := true)]
    else Without(offers, (o: FileOffer) => o.handle == handle)
  }

  function WithResult(offers: seq<FileOffer>, handle: nat, verified: bool): seq<FileOffer> {
    var i := IndexOf(offers, Ending(handle));
    if i < 0 then offers
    else if !verified && offers[i].withdrawn then RemovedAt(offers, i)
    else
      var state := if verified then Saved else if offers[i].state.Canceling? then Canceled else Failed;
      offers[i := offers[i].(state := state)]
  }

  function Apply(offers: seq<FileOffer>, e: Event): seq<FileOffer> {
    match e
    case Withdraw(handle) => WithWithdrawal(offers, handle)
    case Add(_, _, _, _, _, _) =>
      var row := NewOffer(offers, e);
      if row.None? then offers else offers + [row.value]
    case BeginFetch(handle, path, allowed) =>
      if !Begins(offers, handle, allowed) then offers
      else
        var i := IndexOf(offers, ByHandle(handle));
        offers[i := offers[i].(state := Fetching, destination := path, done := 0)]
    case Progress(handle, done) =>
      if !Progresses(offers, handle, done) then offers
      else
        var i := IndexOf(offers, Running(handle));
        offers[i := offers[i].(done := done)]
    case Complete(handle, verified) => WithResult(offers, handle, verified)
    case CancelRequested(handle) => WithCancel(offers, handle)
    case RemoveWhere(remove) => Without(offers, remove)
    case Clear => []
  }

  // ------------------------------------------------------------ the list

  class OfferList {
    var offers: seq<FileOffer>

    constructor ()
      ensures offers == []
    {
      offers := [];
    }

    function Find(handle: nat): Option<FileOffer>
      reads this`offers
    {
      var i := IndexOf(offers, ByHandle(handle));
      if i < 0 then None else Some(offers[i])
    }

    method Withdraw(handle: nat)
      modifies this`offers
      ensures offers == Apply(old(offers), Event.Withdraw(handle))
    {
      var offer := Find(handle);
      if offer.Some? && offer.value.state.Fetching? {
        FirstIsRunning(offers, handle);
        var canceled := CancelRequested(handle);
        CancelKeepsPlace(old(offers), handle);
        var index := IndexOf(offers, ByHandle(handle));
        offers := offers[index := offers[index].(withdrawn := true)];
      } else if offer.Some? && (offer.value.state.Canceling? || offer.value.state.Saved?) {
        var index := IndexOf(offers, ByHandle(handle));
        offers := offers[index := offers[index].(withdrawn := true)];
      } else {
        if offer.None? { WithoutNone(offers, handle); }
        offers := Without(offers, (o: FileOffer) => o.handle == handle);
      }
    }

    method Add(handle: nat, peer: Text, metadata: Text, parse: Text -> Option<Metadata>,
      roomAllowed: nat -> bool, peerAllowed: Text -> bool) returns (added: bool)
      modifies this`offers
      ensures var e := Event.Add(handle, peer, metadata, parse, roomAllowed, peerAllowed);
        offers == Apply(old(offers), e) && added == NewOffer(old(offers), e).Some?
    {
      if handle == 0 || !IsHash(peer) || |metadata| > 4096 || IndexOf(offers, ByHandle(handle)) >= 0 { return false; }
      var lowered := Lower(peer);
      if !peerAllowed(lowered) || |offers| >= CAPACITY || Count(offers, OfPeer(lowered)) >= PEER_CAPACITY { return false; }
      var parsed := parse(metadata);
      if parsed.None? { return false; }
      var m := parsed.value;
      if !roomAllowed(m.room) || m.size > MAX_BYTES || !IsHash(m.hash) || !NameOk(m.name) { return false; }
      var hash := Lower(m.hash);
      if IndexOf(offers, OfFile(m.room, lowered, hash)) >= 0 { return false; }
      offers := offers + [FileOffer(handle, m.room, lowered, hash, m.size, BaseName(m.name), Offered, [], 0, false)];
      added := true;
    }

    method BeginFetch(handle: nat, path: Text, allowed: FileOffer -> bool) returns (destination: Option<Text>)
      modifies this`offers
      ensures offers == Apply(old(offers), Event.BeginFetch(handle, path, allowed))
      ensures destination == if Begins(old(offers), handle, allowed) then Some(path) else None
    {
      var index := IndexOf(offers, ByHandle(handle));
      if index < 0 || Count(offers, Slots) >= CONCURRENT_FETCHES { return None; }
      var offer := offers[index];
      if !Fetchable(offer) || !allowed(offer) { return None; }
      offers := offers[index := offer.(state := Fetching, destination := path, done := 0)];
      destination := Some(path);
    }

    method Progress(handle: nat, done: nat) returns (moved: bool)
      modifies this`offers
      ensures offers == Apply(old(offers), Event.Progress(handle, done)) && moved == Progresses(old(offers), handle, done)
    {
      var index := IndexOf(offers, Running(handle));
      if index < 0 { return false; }
      var offer := offers[index];
      if done > offer.size || done < offer.done { return false; }
      offers := offers[index := offer.(done := done)];
      moved := true;
    }

    method Complete(handle: nat, verified: bool) returns (ended: bool)
      modifies this`offers
      ensures offers == Apply(old(offers), Event.Complete(handle, verified))
      ensures ended <==> IndexOf(old(offers), Ending(handle)) >= 0
    {
      var index := IndexOf(offers, Ending(handle));
      if index < 0 { return false; }
      if !verified && offers[index].withdrawn {
        offers := RemovedAt(offers, index);
        return true;
      }
      var canceled := offers[index].state.Canceling?;
      offers := offers[index := offers[index].(state := if verified then Saved else if canceled then Canceled else Failed)];
      ended := true;
    }

    method CancelRequested(handle: nat) returns (canceled: bool)
      modifies this`offers
      ensures offers == Apply(old(offers), Event.CancelRequested(handle))
      ensures canceled <==> IndexOf(old(offers), Running(handle)) >= 0
    {
      var index := IndexOf(offers, Running(handle));
      if index < 0 { return false; }
      offers := offers[index := offers[index].(state := Canceling)];
      canceled := true;
    }

    method RemoveWhere(remove: FileOffer -> bool)
      modifies this`offers
      ensures offers == Apply(old(offers), Event.RemoveWhere(remove))
    {
      offers := Without(offers, remove);
    }

    method Clear()
      modifies this`offers
      ensures offers == []
    {
      offers := [];
    }
  }

  // ------------------------------------------------------------ searching

  lemma {:induction false} IndexIsFirst(offers: seq<FileOffer>, q: Query, i: nat)
    requires i < |offers| && Matches(q, offers[i])
    requires forall j | 0 <= j < i :: !Matches(q, offers[j])
    ensures IndexOf(offers, q) == i
  {
    if i < |offers| - 1 { IndexIsFirst(offers[..|offers| - 1], q, i); }
  }

  lemma {:induction false} NothingBeforeIndex(offers: seq<FileOffer>, q: Query)
    ensures var i := IndexOf(offers, q);
      forall j | 0 <= j < i :: !Matches(q, offers[j])
  {
    if offers != [] { NothingBeforeIndex(offers[..|offers| - 1], q); }
  }

  lemma {:induction false} FirstIsRunning(offers: seq<FileOffer>, handle: nat)
    requires var i := IndexOf(offers, ByHandle(handle));
      i >= 0 && offers[i].state.Fetching?
    ensures IndexOf(offers, Running(handle)) == IndexOf(offers, ByHandle(handle))
  {
    NothingBeforeIndex(offers, ByHandle(handle));
    IndexIsFirst(offers, Running(handle), IndexOf(offers, ByHandle(handle)));
  }

  lemma {:induction false} CancelKeepsPlace(offers: seq<FileOffer>, handle: nat)
    requires IndexOf(offers, ByHandle(handle)) >= 0
    ensures IndexOf(WithCancel(offers, handle), ByHandle(handle)) == IndexOf(offers, ByHandle(handle))
  {
    NothingBeforeIndex(offers, ByHandle(handle));
    IndexIsFirst(WithCancel(offers, handle), ByHandle(handle), IndexOf(offers, ByHandle(handle)));
  }

  lemma {:induction false} WithoutNone(offers: seq<FileOffer>, handle: nat)
    requires IndexOf(offers, ByHandle(handle)) < 0
    ensures Without(offers, (o: FileOffer) => o.handle == handle) == offers
  {
    if offers != [] {
      WithoutNone(offers[..|offers| - 1], handle);
      assert !Matches(ByHandle(handle), offers[|offers| - 1]);
    }
  }
}
