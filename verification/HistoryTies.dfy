/**
 When a reported insertion lasts (crates/lantern-core/src/store.rs:274-299). The call answers that a
 row was inserted before it prunes, and rows received in one millisecond are kept by signature.
 */
module HistoryTies {
  import opened ByteStrings
  import opened Results
  import opened Ranking
  import opened ChannelHistory
  import opened HistoryStore
  import Utf8

  /** Rows received in the same millisecond that win the tie against `row`. */
  function TiesAhead(rows: set<Row>, row: Row): set<Row> {
    set r | r in rows && r.receivedAt == row.receivedAt && LexLess(row.signature, r.signature)
  }

  /** Room for `row` beside those that win the tie, in its own room and overall. */
  predicate HasRoom(rows: set<Row>, row: Row) {
    |TiesAhead(InRoom(rows, row.room), row)| < MAX_RECORDS && |TiesAhead(rows, row)| < MAX_STORED
  }

  /** In a pruned table, a new row that is no older than the others is kept exactly if the ties leave room. */
  lemma TiesDecide(rows: set<Row>, row: Row)
    requires Cut(rows) == rows && Identified(rows + {row}) && !HasKey(rows, row.room, row.signature)
    requires forall r | r in rows :: r.receivedAt <= row.receivedAt
    ensures row in PutRow(rows, row) <==> HasRoom(rows, row)
  {
    var live := Expire(rows, row.receivedAt - RETENTION_MS);
    var t := live + {row};
    CappedSubset(rows, live);
    StatementsCut(live, row);
    assert Expire(rows + {row}, row.receivedAt - RETENTION_MS) == t;
    LexIrreflexive(row.signature);
    assert Better(InRoom(t, row.room), Newer, row) == TiesAhead(InRoom(rows, row.room), row);
    forall r | r in TiesAhead(rows, row) ensures r in RoomTops(t) { TieKeepsPlace(live, row, r); }
    assert Better(RoomTops(t), Newer, row) == TiesAhead(rows, row);
  }

  lemma TieKeepsPlace(live: set<Row>, row: Row, r: Row)
    requires RoomTops(live) == live && r in live && r.receivedAt == row.receivedAt
    requires LexLess(row.signature, r.signature)
    ensures r in RoomTops(live + {row})
  {
    LexOrder();
    assert r in RoomTops(live);
    assert Better(InRoom(live + {row}, r.room), Newer, r) == Better(InRoom(live, r.room), Newer, r);
  }

  /** A row the table gave up or never had: nothing in the table shares its signature. */
  lemma {:induction false} NewRowIsIdentified(check: Check, before: seq<Event>, e: Event)
    requires Timely(check, before) && Identifying(check, before + [e]) && Inserts(check, Run(check, before).rows, e)
    ensures Identified(Run(check, before).rows + {RowOf(check, e)})
  {
    var events, s, row := before + [e], Run(check, before), RowOf(check, e);
    assert forall i | 0 <= i < |before| :: events[i] == before[i];
    assert events[|before|] == e;
    assert Identifying(check, before);
    RunIsOneShot(check, before);
    OneShotIsCapped(s.log, s.clock);
    forall r | r in s.rows ensures r.signature != row.signature {
      var i :| 0 <= i < |before| && before[i].Put? && Accepted(check, before[i]) && r == RowOf(check, before[i]);
      assert events[i] == before[i];
    }
  }

  /**
   In every timely run, the row of a reported insertion is in the table after its own call if and
   only if fewer than 256 rows of its room and fewer than 8192 rows in all, received in the same
   millisecond, have a greater signature.
   */
  lemma {:induction false} InsertedRowIsKept(check: Check, before: seq<Event>, e: Event)
    requires Timely(check, before + [e]) && Identifying(check, before + [e])
    requires Inserts(check, Run(check, before).rows, e)
    ensures RowOf(check, e) in Run(check, before + [e]).rows <==> HasRoom(Run(check, before).rows, RowOf(check, e))
  {
    var events, s := before + [e], Run(check, before);
    assert events[..|before|] == before && events[|before|] == e;
    assert forall i | 0 <= i < |before| :: before[i] == events[i] && before[..i] == events[..i];
    RunIsOneShot(check, before);
    OneShotIsCapped(s.log, s.clock);
    NewRowIsIdentified(check, before, e);
    TiesDecide(s.rows, RowOf(check, e));
  }

  // ------------------------------------------------------------ a millisecond too full

  /** Records of one room, all received at once. */
  function Burst(room: Bytes, raws: seq<Bytes>, at: int): seq<Event> {
    if raws == [] then [] else Burst(room, raws[..|raws| - 1], at) + [Put(room, raws[|raws| - 1], at)]
  }

  predicate AllVerify(check: Check, room: Bytes, raws: seq<Bytes>) {
    forall i | 0 <= i < |raws| :: check(room, raws[i]).Some?
  }

  ghost predicate Differ(check: Check, room: Bytes, raws: seq<Bytes>) {
    AllVerify(check, room, raws) && forall i, j | 0 <= i < j < |raws| :: check(room, raws[i]) != check(room, raws[j])
  }

  function RowAt(check: Check, room: Bytes, raw: Bytes, at: int): Row
    requires check(room, raw).Some?
  {
    Row(room, check(room, raw).value, raw, at)
  }

  function BurstRows(check: Check, room: Bytes, raws: seq<Bytes>, at: int): set<Row>
    requires AllVerify(check, room, raws)
  {
    set i | 0 <= i < |raws| :: RowAt(check, room, raws[i], at)
  }

  /** The last record's signature is below all the others. */
  predicate LeastLast(check: Check, room: Bytes, raws: seq<Bytes>)
    requires AllVerify(check, room, raws)
  {
    raws != [] && forall i | 0 <= i < |raws| - 1 ::
      LexLess(check(room, raws[|raws| - 1]).value, check(room, raws[i]).value)
  }

  lemma BurstGrows(check: Check, room: Bytes, raws: seq<Bytes>, at: int)
    requires Differ(check, room, raws) && raws != []
    ensures var front, last := raws[..|raws| - 1], raws[|raws| - 1];
      && Differ(check, room, front)
      && BurstRows(check, room, raws, at) == BurstRows(check, room, front, at) + {RowAt(check, room, last, at)}
      && !HasKey(BurstRows(check, room, front, at), room, check(room, last).value)
  {
    var front, last := raws[..|raws| - 1], raws[|raws| - 1];
    var all, some := BurstRows(check, room, raws, at), BurstRows(check, room, front, at);
    forall r | r in all ensures r in some + {RowAt(check, room, last, at)} {
      var i :| 0 <= i < |raws| && r == RowAt(check, room, raws[i], at);
      if i < |front| { assert raws[i] == front[i]; }
    }
    forall r | r in some ensures r in all && r.signature != check(room, last).value {
      var i :| 0 <= i < |front| && r == RowAt(check, room, front[i], at);
      assert raws[i] == front[i];
    }
    assert RowAt(check, room, last, at) in all;
  }

  lemma {:induction false} BurstFacts(check: Check, room: Bytes, raws: seq<Bytes>, at: int)
    requires Differ(check, room, raws)
    ensures var rows := BurstRows(check, room, raws, at);
      && |rows| == |raws| && Identified(rows) && InRoom(rows, room) == rows
      && forall r | r in rows :: r.receivedAt == at
  {
    var rows := BurstRows(check, room, raws, at);
    if raws == [] {
      assert rows == {};
    } else {
      BurstFacts(check, room, raws[..|raws| - 1], at);
      BurstGrows(check, room, raws, at);
    }
  }

  /** Few enough rows of one room are within both caps. */
  lemma FewAreCapped(rows: set<Row>, room: Bytes)
    requires Identified(rows) && InRoom(rows, room) == rows && |rows| <= MAX_RECORDS
    ensures Cut(rows) == rows
  {
    NewerIsStrict();
    IdentifiedIsTotal(rows);
    TopSize(rows, Newer, MAX_RECORDS);
    TopSize(rows, Newer, MAX_STORED);
    SubsetOfSameSize(Top(rows, Newer, MAX_RECORDS), rows);
    SubsetOfSameSize(Top(rows, Newer, MAX_STORED), rows);
    assert RoomTops(rows) == rows;
  }

  lemma SubsetOfSameSize(a: set<Row>, b: set<Row>)
    requires a <= b && |a| == |b|
    ensures a == b
  {
    assert b == a + (b - a);
  }

  /** Up to 256 of them are all kept. */
  lemma {:induction false} BurstIsKept(check: Check, room: Bytes, raws: seq<Bytes>, at: int)
    requires Differ(check, room, raws) && |raws| <= MAX_RECORDS && at >= 0
    ensures Run(check, Burst(room, raws, at)).rows == BurstRows(check, room, raws, at)
  {
    if raws == [] {
      assert BurstRows(check, room, raws, at) == {};
    } else {
      var front, row := raws[..|raws| - 1], RowAt(check, room, raws[|raws| - 1], at);
      var rows := BurstRows(check, room, front, at);
      BurstIsKept(check, room, front, at);
      BurstStep(check, room, raws, at);
      BurstFacts(check, room, front, at);
      BurstFacts(check, room, raws, at);
      FewAreCapped(rows + {row}, room);
      NothingExpires(rows, row);
      CappedIsKept(rows + {row}, room);
      PutInTurn(rows, row, rows + {row}, rows + {row}, rows + {row});
    }
  }

  lemma NothingExpires(rows: set<Row>, row: Row)
    requires !HasKey(rows, row.room, row.signature) && forall r | r in rows :: r.receivedAt == row.receivedAt
    ensures Expire(InsertOrIgnore(rows, row), row.receivedAt - RETENTION_MS) == rows + {row}
  {
  }

  lemma {:induction false} BurstStep(check: Check, room: Bytes, raws: seq<Bytes>, at: int)
    requires Differ(check, room, raws) && raws != [] && at >= 0
    ensures var front, last := Burst(room, raws[..|raws| - 1], at), Put(room, raws[|raws| - 1], at);
      && Burst(room, raws, at) == front + [last] && Accepted(check, last)
      && Run(check, Burst(room, raws, at)) == Step(check, Run(check, front), last)
      && RowOf(check, last) == RowAt(check, room, raws[|raws| - 1], at)
    ensures Differ(check, room, raws[..|raws| - 1])
    ensures BurstRows(check, room, raws, at) ==
      BurstRows(check, room, raws[..|raws| - 1], at) + {RowAt(check, room, raws[|raws| - 1], at)}
    ensures !HasKey(BurstRows(check, room, raws[..|raws| - 1], at), room, check(room, raws[|raws| - 1]).value)
  {
    var all, front := Burst(room, raws, at), Burst(room, raws[..|raws| - 1], at);
    assert all[..|all| - 1] == front;
    BurstGrows(check, room, raws, at);
  }

  /**
   "Inserted" does not mean stored: of up to 257 records of one room and millisecond, arriving with
   the least signature last, the last is reported as inserted, and the same call prunes it exactly
   if it is the 257th.
   */
  lemma {:induction false} ReportedInsertionCanBePruned(check: Check, room: Bytes, raws: seq<Bytes>, at: int)
    requires Differ(check, room, raws) && LeastLast(check, room, raws) && |raws| <= MAX_RECORDS + 1 && at >= 0
    ensures var before, last := Burst(room, raws[..|raws| - 1], at), Put(room, raws[|raws| - 1], at);
      && Burst(room, raws, at) == before + [last]
      && Inserts(check, Run(check, before).rows, last)
      && (RowOf(check, last) in Run(check, before + [last]).rows <==> |raws| <= MAX_RECORDS)
  {
    var front, row := raws[..|raws| - 1], RowAt(check, room, raws[|raws| - 1], at);
    var rows := BurstRows(check, room, front, at);
    BurstStep(check, room, raws, at);
    BurstIsKept(check, room, front, at);
    BurstFacts(check, room, front, at);
    BurstFacts(check, room, raws, at);
    FewAreCapped(rows, room);
    AllAhead(check, room, raws, at);
    TiesDecide(rows, row);
  }

  lemma AllAhead(check: Check, room: Bytes, raws: seq<Bytes>, at: int)
    requires Differ(check, room, raws) && LeastLast(check, room, raws)
    ensures var front, row := raws[..|raws| - 1], RowAt(check, room, raws[|raws| - 1], at);
      TiesAhead(BurstRows(check, room, front, at), row) == BurstRows(check, room, front, at)
  {
    var front, row := raws[..|raws| - 1], RowAt(check, room, raws[|raws| - 1], at);
    forall r | r in BurstRows(check, room, front, at) ensures r in TiesAhead(BurstRows(check, room, front, at), row) {
      var i :| 0 <= i < |front| && r == RowAt(check, room, front[i], at);
      assert raws[i] == front[i];
    }
  }

  // ------------------------------------------------------------ such a run is admissible, and there is one

  lemma {:induction false} BurstShape(room: Bytes, raws: seq<Bytes>, at: int, i: nat)
    requires i <= |raws|
    ensures |Burst(room, raws, at)| == |raws|
    ensures Burst(room, raws, at)[..i] == Burst(room, raws[..i], at)
    ensures i < |raws| ==> Burst(room, raws, at)[i] == Put(room, raws[i], at)
  {
    if raws == [] || i == |raws| {
      if raws != [] { BurstShape(room, raws[..|raws| - 1], at, 0); }
      assert raws[..i] == raws;
      assert Burst(room, raws, at)[..i] == Burst(room, raws, at);
    } else {
      var front := raws[..|raws| - 1];
      BurstShape(room, front, at, i);
      assert raws[..i] == front[..i];
      assert Burst(room, raws, at)[..i] == Burst(room, front, at)[..i];
    }
  }

  lemma {:induction false} BurstClock(check: Check, room: Bytes, raws: seq<Bytes>, at: int)
    requires AllVerify(check, room, raws) && at >= 0
    ensures Run(check, Burst(room, raws, at)).clock <= at
  {
    if raws != [] {
      var front := raws[..|raws| - 1];
      BurstClock(check, room, front, at);
      assert Burst(room, raws, at)[..|Burst(room, front, at)|] == Burst(room, front, at);
    }
  }

  lemma {:induction false} BurstIsTimely(check: Check, room: Bytes, raws: seq<Bytes>, at: int)
    requires AllVerify(check, room, raws) && at >= 0
    ensures Timely(check, Burst(room, raws, at))
  {
    BurstShape(room, raws, at, |raws|);
    forall i | 0 <= i < |raws|
      ensures Burst(room, raws, at)[i] == Put(room, raws[i], at) && Run(check, Burst(room, raws, at)[..i]).clock <= at
    {
      BurstShape(room, raws, at, i);
      BurstClock(check, room, raws[..i], at);
    }
  }

  lemma BurstIdentifies(check: Check, room: Bytes, raws: seq<Bytes>, at: int, events: seq<Event>)
    requires Differ(check, room, raws) && |events| == |raws|
    requires forall i | 0 <= i < |raws| :: events[i] == Put(room, raws[i], at)
    ensures Identifying(check, events)
  {
  }

  /** A burst meets what the theorems about runs ask for. */
  lemma {:induction false} BurstIsAdmissible(check: Check, room: Bytes, raws: seq<Bytes>, at: int)
    requires Differ(check, room, raws) && at >= 0
    ensures Timely(check, Burst(room, raws, at)) && Identifying(check, Burst(room, raws, at))
  {
    BurstIsTimely(check, room, raws, at);
    BurstShape(room, raws, at, |raws|);
    forall i | 0 <= i < |raws| ensures Burst(room, raws, at)[i] == Put(room, raws[i], at) { BurstShape(room, raws, at, i); }
    BurstIdentifies(check, room, raws, at, Burst(room, raws, at));
  }

  function Zeros(n: nat): (b: Bytes)
    ensures |b| == n
  {
    seq(n, _ => 0)
  }

  /** A sound signature scheme that accepts every signature. */
  function Lenient(): Crypto {
    Crypto(_ => Zeros(32), (_, _) => Zeros(SIGNATURE), _ => true, (_, _, _) => true)
  }

  /** 256 signatures above the all-zero one, which comes last. */
  function TieSignature(i: nat): (b: Bytes)
    requires i <= 256
    ensures |b| == SIGNATURE
  {
    if i == 256 then Zeros(SIGNATURE) else [1, i] + Zeros(SIGNATURE - 2)
  }

  /** The record "a" of one author and time, signed so. */
  function TieRecord(i: nat): HistoryRecord
    requires i <= 256
  {
    var body := Body(Zeros(32), Zeros(32), Zeros(16), 0, Utf8.Encode([97]));
    HistoryRecord(Zeros(32), Zeros(32), Zeros(16), 0, [97], TieSignature(i), body + TieSignature(i))
  }

  function TieRaws(n: nat): (raws: seq<Bytes>)
    requires n <= 257
    ensures |raws| == n && forall i | 0 <= i < n :: raws[i] == TieRecord(i).encoded
  {
    seq(n, i requires 0 <= i < n => TieRecord(i).encoded)
  }

  lemma TieVerifies(i: nat)
    requires i <= 256
    ensures Checked(Lenient())(Zeros(32), TieRecord(i).encoded) == Some(TieSignature(i))
  {
    assert Utf8.Encode([97]) == [97] by { assert Utf8.EncodeOne(97) == [97] && [97][1..] == []; }
    GenuineVerifies(Lenient(), TieRecord(i));
  }

  lemma TieOrder(i: nat, j: nat)
    requires i < j <= 256
    ensures TieSignature(i) != TieSignature(j)
    ensures j == 256 ==> LexLess(TieSignature(j), TieSignature(i))
  {
    var a, b := TieSignature(i), TieSignature(j);
    assert a[0] == 1 && a[1] == i;
    if j == 256 { assert b[0] == 0; } else { assert b[1] == j; }
  }

  /** There are 257 verified records of one room, with different signatures and the least one last. */
  lemma TiesExist()
    ensures Sound(Lenient())
    ensures Differ(Checked(Lenient()), Zeros(32), TieRaws(MAX_RECORDS + 1))
    ensures LeastLast(Checked(Lenient()), Zeros(32), TieRaws(MAX_RECORDS + 1))
  {
    var check, raws := Checked(Lenient()), TieRaws(MAX_RECORDS + 1);
    forall i | 0 <= i < |raws| ensures check(Zeros(32), raws[i]) == Some(TieSignature(i)) { TieVerifies(i); }
    forall i, j | 0 <= i < j < |raws|
      ensures TieSignature(i) != TieSignature(j) && (j == MAX_RECORDS ==> LexLess(TieSignature(j), TieSignature(i)))
    {
      TieOrder(i, j);
    }
  }
}
