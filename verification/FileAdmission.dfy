/**
 Which offers are listed and which may be fetched (src/XivLantern.Core/FileOffers.cs:42-91), said
 of the rows listed and of the fields offered, with the limits written out.
 */
module FileAdmission {
  import opened HexText
  import opened Results
  import opened Utf8
  import opened FileOffers
  import opened FileOfferLimits

  /** The listed rows of a kind. */
  ghost function Rows(offers: seq<FileOffer>, q: Query): set<FileOffer> {
    set o | o in offers && Matches(q, o)
  }

  lemma LastIsNew(front: seq<FileOffer>, last: FileOffer)
    requires AllApart(front + [last])
    ensures AllApart(front) && last !in front
  {
    var offers := front + [last];
    forall i, j | 0 <= i < j < |front| ensures Apart(front[i], front[j]) { assert Apart(offers[i], offers[j]); }
    forall i | 0 <= i < |front| ensures front[i] != last { assert Apart(offers[i], offers[|front|]); }
  }

  lemma RowsAdd(front: seq<FileOffer>, last: FileOffer, q: Query)
    requires last !in front
    ensures |Rows(front + [last], q)| == |Rows(front, q)| + if Matches(q, last) then 1 else 0
  {
    assert Rows(front + [last], q) == Rows(front, q) + if Matches(q, last) then {last} else {};
  }

  lemma {:induction false} CountIsSize(offers: seq<FileOffer>, q: Query)
    requires AllApart(offers)
    ensures Count(offers, q) == |Rows(offers, q)|
  {
    if offers != [] {
      var front, last := offers[..|offers| - 1], offers[|offers| - 1];
      assert offers == front + [last];
      LastIsNew(front, last);
      RowsAdd(front, last, q);
      CountIsSize(front, q);
    }
  }

  /** A fetch may begin for a listed, allowed row at rest, while fewer than two rows are busy. */
  lemma BeginsExactly(offers: seq<FileOffer>, handle: nat, allowed: FileOffer -> bool)
    requires Valid(offers)
    ensures Begins(offers, handle, allowed) <==>
      && Row(offers, handle).Some? && allowed(Row(offers, handle).value)
      && Row(offers, handle).value.state in {State.Offered, Failed, Canceled}
      && |Rows(offers, Slots)| < 2
  {
    CountIsSize(offers, Slots);
  }

  // ------------------------------------------------------------ names

  predicate IsSeparator(c: int) {
    c == '/' as int || c == '\\' as int
  }

  predicate NoSeparator(base: Text) {
    forall i | 0 <= i < |base| :: !IsSeparator(base[i])
  }

  /** A name is a directory, empty or up to a separator of either platform, and its last component. */
  ghost predicate Splits(name: Text, directory: Text, base: Text) {
    && name == directory + base && NoSeparator(base)
    && (directory != [] ==> IsSeparator(directory[|directory| - 1]))
  }

  lemma SplitGrows(front: Text, directory: Text, base: Text, last: int)
    requires Splits(front, directory, base) && !IsSeparator(last)
    ensures Splits(front + [last], directory, base + [last])
  {
    assert (directory + base) + [last] == directory + (base + [last]);
  }

  lemma {:induction false} BaseNameIsLast(name: Text) returns (directory: Text)
    ensures Splits(name, directory, BaseName(name))
  {
    if name == [] || IsSeparator(name[|name| - 1]) {
      directory := name;
    } else {
      var front, last := name[..|name| - 1], name[|name| - 1];
      directory := BaseNameIsLast(front);
      SplitGrows(front, directory, BaseName(front), last);
      assert name == front + [last];
    }
  }

  lemma LastComponentIsUnique(name: Text, d1: Text, b1: Text, d2: Text, b2: Text)
    requires Splits(name, d1, b1) && Splits(name, d2, b2)
    ensures b1 == b2
  {
    NoLonger(name, d1, b1, d2, b2);
    NoLonger(name, d2, b2, d1, b1);
    assert b1 == name[|d1|..] && b2 == name[|d2|..];
  }

  lemma NoLonger(name: Text, d1: Text, b1: Text, d2: Text, b2: Text)
    requires Splits(name, d1, b1) && Splits(name, d2, b2)
    ensures |d2| <= |d1|
  {
    forall i | |d1| <= i < |name| ensures !IsSeparator(name[i]) { assert name[i] == b1[i - |d1|]; }
    assert d2 != [] ==> name[|d2| - 1] == d2[|d2| - 1];
  }

  /** The last component shows something and is no relative directory. */
  ghost predicate IsShowable(name: Text, directory: Text, base: Text) {
    Splits(name, directory, base) && !IsBlank(base) && base != ['.' as int] && base != ['.' as int, '.' as int]
  }

  // ------------------------------------------------------------ offers

  /** What is asked of an offer's fields alone. */
  ghost predicate WellFormed(e: Event)
    requires e.Add?
  {
    && e.handle > 0 && IsHash(e.peer) && |e.metadata| <= 4096 && e.parse(e.metadata).Some?
    && var m := e.parse(e.metadata).value;
    && m.size <= 16777216 && IsHash(m.hash) && 1 <= |m.name| <= 256
    && (forall i | 0 <= i < |m.name| :: !IsControl(m.name[i]))
    && exists directory, base :: IsShowable(m.name, directory, base)
  }

  /** And of the list and the user's settings. */
  ghost predicate HasPlace(offers: seq<FileOffer>, e: Event)
    requires e.Add? && e.parse(e.metadata).Some?
  {
    var m, peer := e.parse(e.metadata).value, Lower(e.peer);
    && e.peerAllowed(peer) && e.roomAllowed(m.room)
    && |offers| < 128 && |Rows(offers, OfPeer(peer))| < 8
    && forall o | o in offers ::
         o.handle != e.handle && !(o.room == m.room && o.peer == peer && o.hash == Lower(m.hash))
  }

  lemma {:induction false} NoneFound(offers: seq<FileOffer>, q: Query)
    ensures IndexOf(offers, q) < 0 <==> forall o | o in offers :: !Matches(q, o)
  {
    if IndexOf(offers, q) >= 0 { assert offers[IndexOf(offers, q)] in offers; }
  }

  lemma NameIsOk(name: Text)
    ensures NameOk(name) <==>
      && 1 <= |name| <= 256 && (forall i | 0 <= i < |name| :: !IsControl(name[i]))
      && exists directory, base :: IsShowable(name, directory, base)
  {
    var here := BaseNameIsLast(name);
    forall directory, base | IsShowable(name, directory, base) ensures base == BaseName(name) {
      LastComponentIsUnique(name, directory, base, here, BaseName(name));
    }
    assert NameOk(name) ==> IsShowable(name, here, BaseName(name));
  }

  /** The source's order of checks, without the row they lead to. */
  predicate Passes(offers: seq<FileOffer>, e: Event)
    requires e.Add?
  {
    && e.handle != 0 && IsHash(e.peer) && |e.metadata| <= 4096 && e.parse(e.metadata).Some?
    && var m, peer := e.parse(e.metadata).value, Lower(e.peer);
    && m.size <= MAX_BYTES && IsHash(m.hash) && NameOk(m.name) && e.peerAllowed(peer) && e.roomAllowed(m.room)
    && |offers| < CAPACITY && Count(offers, OfPeer(peer)) < PEER_CAPACITY
    && IndexOf(offers, ByHandle(e.handle)) < 0 && IndexOf(offers, OfFile(m.room, peer, Lower(m.hash))) < 0
  }

  lemma PassesExactly(offers: seq<FileOffer>, e: Event)
    requires Valid(offers) && e.Add?
    ensures Passes(offers, e) <==> WellFormed(e) && HasPlace(offers, e)
  {
    if e.parse(e.metadata).Some? {
      var m, peer := e.parse(e.metadata).value, Lower(e.peer);
      CountIsSize(offers, OfPeer(peer));
      NoneFound(offers, ByHandle(e.handle));
      NoneFound(offers, OfFile(m.room, peer, Lower(m.hash)));
      NameIsOk(m.name);
    }
  }

  lemma PassingIsListed(offers: seq<FileOffer>, e: Event)
    requires e.Add?
    ensures NewOffer(offers, e).Some? <==> Passes(offers, e)
    ensures NewOffer(offers, e).Some? ==>
      var m := e.parse(e.metadata).value;
      NewOffer(offers, e).value ==
        FileOffer(e.handle, m.room, Lower(e.peer), Lower(m.hash), m.size, BaseName(m.name), Offered, [], 0, false)
  {
  }

  /** An offer is listed exactly if it is well formed and there is a place for it, and then as it came, waiting for a click. */
  lemma OfferIsListed(offers: seq<FileOffer>, e: Event)
    requires Valid(offers) && e.Add?
    ensures if WellFormed(e) && HasPlace(offers, e) then
              exists directory, base :: IsShowable(e.parse(e.metadata).value.name, directory, base)
                && Apply(offers, e) == offers + [Listing(e, base)]
            else Apply(offers, e) == offers
  {
    PassesExactly(offers, e);
    PassingIsListed(offers, e);
    if Passes(offers, e) {
      var name := e.parse(e.metadata).value.name;
      var directory := BaseNameIsLast(name);
      assert IsShowable(name, directory, BaseName(name));
    }
  }

  function Listing(e: Event, name: Text): FileOffer
    requires e.Add? && e.parse(e.metadata).Some?
  {
    var m := e.parse(e.metadata).value;
    FileOffer(e.handle, m.room, Lower(e.peer), Lower(m.hash), m.size, name, State.Offered, [], 0, false)
  }
}
