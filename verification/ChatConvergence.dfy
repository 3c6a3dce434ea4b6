/**
 Convergence of catch-up loads (src/XivLantern.Core/ChatBook.cs:73-89 with
 src/XivLantern.Plugin/LanternService.cs:515-522).

 The sender's name shown on a line may differ between two deliveries of one record, so views are
 compared by claimed time, signature and text.
 */
module ChatConvergence {
  import opened ByteStrings
  import opened HexText
  import opened Results
  import opened Ranking
  import opened ChatBook

  datatype Record = Record(claimedAt: int, signature: Text, text: Text)

  predicate Signed(line: ChatLine) {
    line.signature.Some? && line.claimedAt.Some?
  }

  predicate AllSigned(lines: seq<ChatLine>) {
    forall i | 0 <= i < |lines| :: Signed(lines[i])
  }

  function RecordOf(line: ChatLine): Record
    requires Signed(line)
  {
    Record(line.claimedAt.value, line.signature.value, line.text)
  }

  function View(lines: seq<ChatLine>): (v: seq<Record>)
    requires AllSigned(lines)
    ensures |v| == |lines| && forall i | 0 <= i < |lines| :: v[i] == RecordOf(lines[i])
  {
    seq(|lines|, i requires 0 <= i < |lines| => RecordOf(lines[i]))
  }

  /** The records a list of lines shows. */
  ghost function Shown(lines: seq<ChatLine>): set<Record>
    requires AllSigned(lines)
  {
    set i | 0 <= i < |lines| :: RecordOf(lines[i])
  }

  predicate Earlier(a: Record, b: Record) {
    a.claimedAt < b.claimedAt || (a.claimedAt == b.claimedAt && LexLess(a.signature, b.signature))
  }

  predicate Later(a: Record, b: Record) {
    Earlier(b, a)
  }

  lemma Orders()
    ensures StrictOrder(Earlier) && StrictOrder(Later) && StrictOrder(LineLess)
  {
    LexOrder();
  }

  /** A signature stands for one record: the same claimed time and text wherever it is received. */
  ghost predicate Consistent(records: set<Record>) {
    forall x, y | x in records && y in records :: x.signature == y.signature ==> x == y
  }

  lemma ConsistentIsTotal(records: set<Record>)
    requires Consistent(records)
    ensures TotalOn(Later, records)
  {
    forall x, y | x in records && y in records && x != y
      ensures Later(x, y) || Later(y, x)
    {
      LexTotal(x.signature, y.signature);
    }
  }

  ghost predicate SignaturesOnce(lines: seq<ChatLine>) {
    forall i, j | 0 <= i < j < |lines| :: lines[i].signature != lines[j].signature
  }

  // ------------------------------------------------------------ the parts of one load

  lemma ShownStep(lines: seq<ChatLine>, line: ChatLine)
    requires AllSigned(lines + [line])
    ensures AllSigned(lines) && Signed(line) && Shown(lines + [line]) == Shown(lines) + {RecordOf(line)}
  {
    var all := lines + [line];
    assert forall i | 0 <= i < |lines| :: all[i] == lines[i];
    assert all[|lines|] == line;
    forall r | r in Shown(lines) ensures r in Shown(all) {
      var i :| 0 <= i < |lines| && RecordOf(lines[i]) == r;
      assert RecordOf(all[i]) == r;
    }
    assert RecordOf(all[|lines|]) in Shown(all);
  }

  lemma SignatureIsShown(lines: seq<ChatLine>, t: Text)
    requires AllSigned(lines)
    ensures HasSignature(lines, t) <==> exists r | r in Shown(lines) :: r.signature == t
  {
    if HasSignature(lines, t) {
      var i :| 0 <= i < |lines| && lines[i].signature == Some(t);
      assert RecordOf(lines[i]) in Shown(lines);
    }
  }

  lemma AppendOnce(lines: seq<ChatLine>, line: ChatLine)
    requires SignaturesOnce(lines) && Signed(line) && !HasSignature(lines, line.signature.value)
    ensures SignaturesOnce(lines + [line])
  {
  }

  lemma {:induction false} OlderShows(history: seq<ChatLine>)
    requires AllSigned(history) && Consistent(Shown(history))
    ensures AllSigned(Older(history)) && SignaturesOnce(Older(history)) && Shown(Older(history)) == Shown(history)
  {
    if history != [] {
      var front, last := history[..|history| - 1], history[|history| - 1];
      assert history == front + [last];
      ShownStep(front, last);
      OlderShows(front);
      var older := Older(front);
      SignatureIsShown(front, last.signature.value);
      SignatureIsShown(older, last.signature.value);
      if !HasSignature(front, last.signature.value) {
        assert AllSigned(older + [last]);
        ShownStep(older, last);
        AppendOnce(older, last);
      } else {
        assert older + [] == older;
      }
    }
  }

  lemma {:induction false} KeepShows(lines: seq<ChatLine>, older: seq<ChatLine>)
    requires AllSigned(lines) && SignaturesOnce(lines)
    ensures AllSigned(Keep(lines, older)) && SignaturesOnce(Keep(lines, older))
    ensures Shown(Keep(lines, older)) == set r | r in Shown(lines) && !HasSignature(older, r.signature)
  {
    if lines != [] {
      var front, last := lines[..|lines| - 1], lines[|lines| - 1];
      assert lines == front + [last];
      ShownStep(front, last);
      KeepShows(front, older);
      var keep := Keep(front, older);
      if Replaced(older, last) {
        assert keep + [] == keep;
      } else {
        assert AllSigned(keep + [last]);
        ShownStep(keep, last);
        SignatureIsShown(keep, last.signature.value);
        SignatureIsShown(front, last.signature.value);
        NotBefore(front, last);
        AppendOnce(keep, last);
      }
    }
  }

  lemma NotBefore(front: seq<ChatLine>, last: ChatLine)
    requires SignaturesOnce(front + [last]) && Signed(last)
    ensures !HasSignature(front, last.signature.value)
  {
    var all := front + [last];
    forall i | 0 <= i < |front| ensures front[i].signature != last.signature {
      assert all[i] == front[i] && all[|front|] == last;
    }
  }

  lemma ShownConcat(a: seq<ChatLine>, b: seq<ChatLine>)
    requires AllSigned(a) && AllSigned(b)
    ensures AllSigned(a + b) && Shown(a + b) == Shown(a) + Shown(b)
  {
    forall r | r in Shown(a) ensures r in Shown(a + b) {
      var i :| 0 <= i < |a| && RecordOf(a[i]) == r;
      assert (a + b)[i] == a[i];
    }
    forall r | r in Shown(b) ensures r in Shown(a + b) {
      var i :| 0 <= i < |b| && RecordOf(b[i]) == r;
      assert (a + b)[|a| + i] == b[i];
    }
  }

  lemma {:induction false} MergedShows(lines: seq<ChatLine>, history: seq<ChatLine>)
    requires AllSigned(lines) && AllSigned(history) && SignaturesOnce(lines)
    requires Consistent(Shown(lines) + Shown(history))
    ensures var merged := Older(history) + Keep(lines, Older(history));
      AllSigned(merged) && SignaturesOnce(merged) && Shown(merged) == Shown(lines) + Shown(history)
  {
    var older := Older(history);
    var keep := Keep(lines, older);
    OlderShows(history);
    KeepShows(lines, older);
    ShownConcat(older, keep);
    forall r | r in Shown(lines)
      ensures r in Shown(older) + Shown(keep)
    {
      SignatureIsShown(older, r.signature);
    }
    ConcatOnce(older, keep);
  }

  lemma ConcatOnce(a: seq<ChatLine>, b: seq<ChatLine>)
    requires AllSigned(b) && SignaturesOnce(a) && SignaturesOnce(b)
    requires forall r | r in Shown(b) :: !HasSignature(a, r.signature)
    ensures SignaturesOnce(a + b)
  {
    forall i | 0 <= i < |b| ensures !HasSignature(a, b[i].signature.value) {
      assert RecordOf(b[i]) in Shown(b);
    }
    var all := a + b;
    forall i, j | 0 <= i < j < |all|
      ensures all[i].signature != all[j].signature
    {
      assert all[i] == if i < |a| then a[i] else b[i - |a|];
      assert all[j] == if j < |a| then a[j] else b[j - |a|];
    }
  }

  // ------------------------------------------------------------ sorting and cutting

  lemma OnceIsTotal(lines: seq<ChatLine>)
    requires AllSigned(lines) && SignaturesOnce(lines)
    ensures TotalOn(LineLess, Elements(lines)) && Distinct(lines)
  {
    forall x, y | x in Elements(lines) && y in Elements(lines) && x != y
      ensures LineLess(x, y) || LineLess(y, x)
    {
      var i :| 0 <= i < |lines| && lines[i] == x;
      var j :| 0 <= j < |lines| && lines[j] == y;
      LexTotal(x.signature.value, y.signature.value);
    }
  }

  lemma {:induction false} SortedShows(lines: seq<ChatLine>)
    requires AllSigned(lines) && SignaturesOnce(lines)
    ensures var sorted := Sort(lines, LineLess);
      AllSigned(sorted) && Ascending(View(sorted), Earlier) && Shown(sorted) == Shown(lines)
  {
    var sorted := Sort(lines, LineLess);
    OnceIsTotal(lines);
    Orders();
    SortAscending(lines, LineLess);
    SameElements(lines, sorted);
    SameLines(lines, sorted);
    SameLines(sorted, lines);
    forall i, j | 0 <= i < j < |sorted|
      ensures Earlier(View(sorted)[i], View(sorted)[j])
    {
      assert LineLess(sorted[i], sorted[j]);
    }
  }

  lemma SameLines(a: seq<ChatLine>, b: seq<ChatLine>)
    requires AllSigned(a) && Elements(a) == Elements(b)
    ensures AllSigned(b) && Shown(b) <= Shown(a)
  {
    forall i | 0 <= i < |b|
      ensures Signed(b[i]) && RecordOf(b[i]) in Shown(a)
    {
      assert b[i] in Elements(a);
      var j :| 0 <= j < |a| && a[j] == b[i];
      assert RecordOf(a[j]) in Shown(a);
    }
  }

  lemma ShownIsView(lines: seq<ChatLine>)
    requires AllSigned(lines)
    ensures Shown(lines) == Elements(View(lines))
  {
    forall r | r in Elements(View(lines)) ensures r in Shown(lines) {
      var i :| 0 <= i < |View(lines)| && View(lines)[i] == r;
      assert RecordOf(lines[i]) == r;
    }
    forall r | r in Shown(lines) ensures r in Elements(View(lines)) {
      var i :| 0 <= i < |lines| && RecordOf(lines[i]) == r;
      assert View(lines)[i] == r;
    }
  }

  // ------------------------------------------------------------ whole runs

  /** The lines show exactly the latest 500 records seen, in order. */
  ghost predicate Settled(lines: seq<ChatLine>, seen: set<Record>) {
    && AllSigned(lines) && SignaturesOnce(lines)
    && Ascending(View(lines), Earlier)
    && Shown(lines) == Top(seen, Later, MAX_LINES)
  }

  lemma OnceSorted(lines: seq<ChatLine>)
    requires AllSigned(lines) && Ascending(View(lines), Earlier) && Consistent(Shown(lines))
    ensures SignaturesOnce(lines)
  {
    Orders();
    forall i, j | 0 <= i < j < |lines|
      ensures lines[i].signature != lines[j].signature
    {
      assert Earlier(View(lines)[i], View(lines)[j]);
      assert RecordOf(lines[i]) in Shown(lines) && RecordOf(lines[j]) in Shown(lines);
    }
  }

  lemma CutShows(sorted: seq<ChatLine>)
    requires AllSigned(sorted) && Ascending(View(sorted), Earlier)
    ensures var cut := LastLines(sorted);
      && AllSigned(cut) && Ascending(View(cut), Earlier)
      && Shown(cut) == Top(Shown(sorted), Later, MAX_LINES)
  {
    var cut := LastLines(sorted);
    Orders();
    assert View(cut) == Tail(View(sorted), MAX_LINES);
    TailIsTop(View(sorted), Earlier, Later, MAX_LINES);
    ShownIsView(sorted);
    ShownIsView(cut);
  }

  lemma LoadSettles(lines: seq<ChatLine>, history: seq<ChatLine>, seen: set<Record>)
    requires Settled(lines, seen) && AllSigned(history) && Consistent(seen + Shown(history))
    ensures Settled(Loaded(lines, history), seen + Shown(history))
  {
    var merged := Older(history) + Keep(lines, Older(history));
    MergedShows(lines, history);
    SortedShows(merged);
    OlderShows(history);
    KeepShows(lines, Older(history));
    MergedIsSorted(lines, history);
    var sorted := Sort(merged, LineLess);
    CutShows(sorted);
    var all := seen + Shown(history);
    ConsistentIsTotal(all);
    Orders();
    TopStreams(seen, Shown(history), Later, MAX_LINES);
    OnceSorted(LastLines(sorted));
  }

  /** Catch-up loads one after the other, from an empty conversation. */
  function LoadAll(loads: seq<seq<ChatLine>>): seq<ChatLine> {
    if loads == [] then [] else Loaded(LoadAll(loads[..|loads| - 1]), loads[|loads| - 1])
  }

  ghost predicate AllLoadsSigned(loads: seq<seq<ChatLine>>) {
    forall i | 0 <= i < |loads| :: AllSigned(loads[i])
  }

  /** Every record in any of the loads. */
  ghost function Seen(loads: seq<seq<ChatLine>>): set<Record>
    requires AllLoadsSigned(loads)
  {
    if loads == [] then {} else Seen(loads[..|loads| - 1]) + Shown(loads[|loads| - 1])
  }

  lemma {:induction false} LoadsSettle(loads: seq<seq<ChatLine>>)
    requires AllLoadsSigned(loads) && Consistent(Seen(loads))
    ensures Settled(LoadAll(loads), Seen(loads))
  {
    if loads == [] {
      assert Shown([]) == {};
    } else {
      LoadsSettle(loads[..|loads| - 1]);
      LoadSettles(LoadAll(loads[..|loads| - 1]), loads[|loads| - 1], Seen(loads[..|loads| - 1]));
    }
  }

  /**
   Convergence: two conversations that were loaded with the same records, in whatever order,
   grouping and repetition, show the same signatures and texts in the same order.
   */
  lemma {:induction false} Convergence(loads1: seq<seq<ChatLine>>, loads2: seq<seq<ChatLine>>)
    requires AllLoadsSigned(loads1) && AllLoadsSigned(loads2)
    requires Seen(loads1) == Seen(loads2) && Consistent(Seen(loads1))
    ensures AllSigned(LoadAll(loads1)) && AllSigned(LoadAll(loads2))
    ensures View(LoadAll(loads1)) == View(LoadAll(loads2))
  {
    LoadsSettle(loads1);
    LoadsSettle(loads2);
    ShownIsView(LoadAll(loads1));
    ShownIsView(LoadAll(loads2));
    Orders();
    AscendingIsUnique(View(LoadAll(loads1)), View(LoadAll(loads2)), Earlier);
  }

  // ------------------------------------------------------------ live records among the loads

  /** A live record is appended by `Add`; catch-up goes through `LoadHistory`. */
  datatype Delivery = Live(line: ChatLine) | Catchup(history: seq<ChatLine>)

  function Delivered(d: Delivery): seq<ChatLine> {
    match d case Live(line) => [line] case Catchup(history) => history
  }

  function Deliver(lines: seq<ChatLine>, d: Delivery): seq<ChatLine> {
    match d case Live(line) => Added(lines, line) case Catchup(history) => Loaded(lines, history)
  }

  function DeliverAll(ds: seq<Delivery>): seq<ChatLine> {
    if ds == [] then [] else Deliver(DeliverAll(ds[..|ds| - 1]), ds[|ds| - 1])
  }

  ghost predicate AllDeliveriesSigned(ds: seq<Delivery>) {
    forall i | 0 <= i < |ds| :: AllSigned(Delivered(ds[i]))
  }

  ghost function Received(ds: seq<Delivery>): set<Record>
    requires AllDeliveriesSigned(ds)
  {
    if ds == [] then {} else Received(ds[..|ds| - 1]) + Shown(Delivered(ds[|ds| - 1]))
  }

  lemma {:induction false} ShownSize(lines: seq<ChatLine>)
    requires AllSigned(lines) && SignaturesOnce(lines)
    ensures |Shown(lines)| == |lines|
  {
    if lines == [] {
      assert Shown(lines) == {};
    } else {
      var front, last := lines[..|lines| - 1], lines[|lines| - 1];
      assert lines == front + [last];
      ShownSize(front);
      ShownStep(front, last);
      NotBefore(front, last);
      SignatureIsShown(front, last.signature.value);
    }
  }

  /** All records received are listed once each; nothing has been cut. */
  ghost predicate Complete(lines: seq<ChatLine>, received: set<Record>) {
    AllSigned(lines) && SignaturesOnce(lines) && Shown(lines) == received
  }

  lemma AddCompletes(lines: seq<ChatLine>, line: ChatLine, received: set<Record>)
    requires Complete(lines, received) && Signed(line)
    requires Consistent(received + {RecordOf(line)}) && |received + {RecordOf(line)}| <= MAX_LINES
    ensures Complete(Added(lines, line), received + {RecordOf(line)})
  {
    SignatureIsShown(lines, line.signature.value);
    ShownSize(lines);
    if !Repeats(lines, line) {
      assert AllSigned(lines + [line]);
      ShownStep(lines, line);
      AppendOnce(lines, line);
    }
  }

  lemma LoadCompletes(lines: seq<ChatLine>, history: seq<ChatLine>, received: set<Record>)
    requires Complete(lines, received) && AllSigned(history)
    requires Consistent(received + Shown(history)) && |received + Shown(history)| <= MAX_LINES
    ensures Complete(Loaded(lines, history), received + Shown(history))
    ensures Ascending(View(Loaded(lines, history)), Earlier)
  {
    MergedShows(lines, history);
    OlderShows(history);
    KeepShows(lines, Older(history));
    MergedIsSorted(lines, history);
    SortCompletes(Older(history) + Keep(lines, Older(history)), received + Shown(history));
  }

  lemma {:induction false} SortCompletes(merged: seq<ChatLine>, received: set<Record>)
    requires Complete(merged, received) && Consistent(received) && |received| <= MAX_LINES
    ensures var sorted := LastLines(Sort(merged, LineLess));
      Complete(sorted, received) && Ascending(View(sorted), Earlier)
  {
    ShownSize(merged);
    SortedShows(merged);
    SameElements(merged, Sort(merged, LineLess));
    OnceSorted(Sort(merged, LineLess));
  }

  lemma {:induction false} MergedIsSorted(lines: seq<ChatLine>, history: seq<ChatLine>)
    requires AllSigned(Older(history)) && AllSigned(Keep(lines, Older(history)))
    ensures Loaded(lines, history) == LastLines(Sort(Older(history) + Keep(lines, Older(history)), LineLess))
  {
    var older, keep := Older(history), Keep(lines, Older(history));
    if older != [] { assert Signed(older[0]); }
    if keep != [] { assert Signed(keep[0]); }
  }

  /**
   While at most 500 distinct records have been received, any mixture of live records and loads
   lists each of them exactly once, and in order whenever a load came last.
   */
  lemma {:induction false} NothingIsLostWithinCapacity(ds: seq<Delivery>)
    requires AllDeliveriesSigned(ds) && Consistent(Received(ds)) && |Received(ds)| <= MAX_LINES
    ensures Complete(DeliverAll(ds), Received(ds))
    ensures ds != [] && ds[|ds| - 1].Catchup? ==> Ascending(View(DeliverAll(ds)), Earlier)
  {
    if ds == [] {
      assert Shown([]) == {};
    } else {
      var front, last := ds[..|ds| - 1], ds[|ds| - 1];
      SubsetSize(Received(front), Received(ds));
      NothingIsLostWithinCapacity(front);
      match last
      case Live(line) =>
        assert Delivered(last) == [] + [line];
        ShownStep([], line);
        assert Shown([]) == {};
        AddCompletes(DeliverAll(front), line, Received(front));
      case Catchup(history) =>
        LoadCompletes(DeliverAll(front), history, Received(front));
    }
  }
}
