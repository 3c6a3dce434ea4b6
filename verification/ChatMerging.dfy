/**
 Which lines a conversation shows, and in which order, whatever mixture of signed records, friend
 messages and system lines it holds (src/XivLantern.Core/ChatBook.cs:35-89).
 */
module ChatMerging {
  import opened ByteStrings
  import opened HexText
  import opened Results
  import opened Ranking
  import opened ChatBook

  // ------------------------------------------------------------ which lines a load leaves

  /** The history brings this line, and no earlier line with its signature. */
  ghost predicate Brings(history: seq<ChatLine>, i: nat, line: ChatLine) {
    && i < |history| && history[i] == line
    && (line.signature.Some? ==> forall j | 0 <= j < i :: history[j].signature != line.signature)
  }

  /** Nothing in the history stands for this line: the same signature, or unsigned the same message id and direction. */
  ghost predicate Survives(history: seq<ChatLine>, line: ChatLine) {
    if line.signature.Some? then forall h | h in history :: h.signature != line.signature
    else line.id == 0 || forall h | h in history :: h.signature.None? ==> h.id != line.id || h.outgoing != line.outgoing
  }

  ghost predicate Brought(history: seq<ChatLine>, line: ChatLine) {
    exists i: nat :: Brings(history, i, line)
  }

  lemma BringsMore(front: seq<ChatLine>, last: ChatLine, i: nat, line: ChatLine)
    requires i < |front|
    ensures Brings(front + [last], i, line) <==> Brings(front, i, line)
  {
    var history := front + [last];
    assert forall j | 0 <= j < |front| :: history[j] == front[j];
  }

  lemma BringsLast(front: seq<ChatLine>, last: ChatLine, line: ChatLine)
    ensures Brings(front + [last], |front|, line) <==>
      line == last && !(last.signature.Some? && HasSignature(front, last.signature.value))
  {
    var history := front + [last];
    assert forall j | 0 <= j < |front| :: history[j] == front[j];
    assert history[|front|] == last;
  }

  lemma BroughtStep(front: seq<ChatLine>, last: ChatLine, line: ChatLine)
    ensures Brought(front + [last], line) <==> Brought(front, line) || Brings(front + [last], |front|, line)
  {
    var history := front + [last];
    if Brought(front, line) {
      var i: nat :| Brings(front, i, line);
      BringsMore(front, last, i, line);
    }
    if Brought(history, line) {
      var i: nat :| Brings(history, i, line);
      if i < |front| { BringsMore(front, last, i, line); }
    }
  }

  lemma {:induction false} OlderExactly(history: seq<ChatLine>, line: ChatLine)
    ensures line in Older(history) <==> Brought(history, line)
  {
    if history != [] {
      var front, last := history[..|history| - 1], history[|history| - 1];
      assert history == front + [last];
      OlderExactly(front, line);
      BroughtStep(front, last, line);
      BringsLast(front, last, line);
    }
  }

  lemma {:induction false} KeepExactly(lines: seq<ChatLine>, older: seq<ChatLine>, line: ChatLine)
    ensures line in Keep(lines, older) <==> line in lines && !Replaced(older, line)
  {
    if lines != [] {
      KeepExactly(lines[..|lines| - 1], older, line);
      assert lines == lines[..|lines| - 1] + [lines[|lines| - 1]];
    }
  }

  /** Dropping repeated signatures loses no signature and no message. */
  lemma {:induction false} OlderStandsFor(history: seq<ChatLine>)
    ensures forall t :: HasSignature(Older(history), t) <==> HasSignature(history, t)
    ensures forall id, outgoing :: HasMessage(Older(history), id, outgoing) <==> HasMessage(history, id, outgoing)
  {
    if history != [] {
      var front, last := history[..|history| - 1], history[|history| - 1];
      OlderStandsFor(front);
      assert history == front + [last];
      forall t ensures HasSignature(Older(history), t) <==> HasSignature(history, t) {
        HasSignatureStep(front, last, t);
        HasSignatureStep(Older(front), last, t);
        assert Older(front) + [] == Older(front);
      }
      forall id, outgoing ensures HasMessage(Older(history), id, outgoing) <==> HasMessage(history, id, outgoing) {
        HasMessageStep(front, last, id, outgoing);
        HasMessageStep(Older(front), last, id, outgoing);
        assert Older(front) + [] == Older(front);
      }
    }
  }

  lemma HasMessageStep(lines: seq<ChatLine>, line: ChatLine, id: nat, outgoing: bool)
    ensures HasMessage(lines + [line], id, outgoing) <==>
      HasMessage(lines, id, outgoing) || (line.signature.None? && line.id == id && line.outgoing == outgoing)
  {
    var all := lines + [line];
    assert forall i | 0 <= i < |lines| :: all[i] == lines[i];
    assert all[|lines|] == line;
  }

  lemma {:induction false} ReplacedExactly(history: seq<ChatLine>, line: ChatLine)
    ensures Replaced(Older(history), line) <==> !Survives(history, line)
  {
    OlderStandsFor(history);
    if line.signature.Some? {
      assert HasSignature(history, line.signature.value) <==> !Survives(history, line);
    } else {
      assert HasMessage(history, line.id, line.outgoing) <==>
        exists h | h in history :: h.signature.None? && h.id == line.id && h.outgoing == line.outgoing;
    }
  }

  lemma {:induction false} MergedHasTheSame(lines: seq<ChatLine>, history: seq<ChatLine>)
    ensures multiset(Merged(lines, history)) == multiset(Older(history)) + multiset(Keep(lines, Older(history)))
  {
    var older, keep := Older(history), Keep(lines, Older(history));
    assert multiset(older + keep) == multiset(older) + multiset(keep);
  }

  /** A merge holds exactly the lines the history brings and the listed lines it does not stand for. */
  lemma MergedExactly(lines: seq<ChatLine>, history: seq<ChatLine>, line: ChatLine)
    ensures line in Merged(lines, history) <==>
      Brought(history, line) || (line in lines && Survives(history, line))
  {
    MergedHasTheSame(lines, history);
    assert line in Merged(lines, history) <==> line in multiset(Merged(lines, history));
    OlderExactly(history, line);
    KeepExactly(lines, Older(history), line);
    ReplacedExactly(history, line);
  }

  /** A conversation is cut only at the front, and only beyond 500 lines. */
  lemma LastLinesExactly(lines: seq<ChatLine>)
    ensures |lines| <= 500 ==> LastLines(lines) == lines
    ensures |lines| > 500 ==> |LastLines(lines)| == 500 && lines == lines[..|lines| - 500] + LastLines(lines)
  {
  }

  /** While the merge fits, a load shows exactly those lines: a system line, or any line it does not bring again, stays. */
  lemma LoadShowsExactly(lines: seq<ChatLine>, history: seq<ChatLine>, line: ChatLine)
    requires |Merged(lines, history)| <= 500
    ensures line in Loaded(lines, history) <==>
      Brought(history, line) || (line in lines && Survives(history, line))
  {
    MergedExactly(lines, history, line);
    LastLinesExactly(Merged(lines, history));
  }

  lemma {:induction false} MergeSize(lines: seq<ChatLine>, history: seq<ChatLine>)
    ensures |Merged(lines, history)| == |Older(history)| + |Keep(lines, Older(history))| <= |history| + |lines|
  {
    MergedHasTheSame(lines, history);
    assert |multiset(Merged(lines, history))| == |Merged(lines, history)|;
    OlderSize(history);
    KeepSize(lines, Older(history));
  }

  lemma {:induction false} OlderSize(history: seq<ChatLine>)
    ensures |Older(history)| <= |history|
  {
    if history != [] { OlderSize(history[..|history| - 1]); }
  }

  lemma {:induction false} KeepSize(lines: seq<ChatLine>, older: seq<ChatLine>)
    ensures |Keep(lines, older)| <= |lines|
  {
    if lines != [] { KeepSize(lines[..|lines| - 1], older); }
  }

  // ------------------------------------------------------------ their order

  ghost predicate Unsigned(lines: seq<ChatLine>) {
    forall i | 0 <= i < |lines| :: lines[i].signature.None?
  }

  /** A surviving line stands among the survivors with as many before it as there were. */
  lemma {:induction false} KeepPlaces(lines: seq<ChatLine>, older: seq<ChatLine>, j: nat)
    requires j < |lines| && !Replaced(older, lines[j])
    ensures |Keep(lines[..j], older)| < |Keep(lines, older)| && Keep(lines, older)[|Keep(lines[..j], older)|] == lines[j]
  {
    var front, last := lines[..|lines| - 1], lines[|lines| - 1];
    if j < |front| {
      KeepPlaces(front, older, j);
      assert lines[..j] == front[..j];
    } else {
      assert lines[..j] == front;
    }
  }

  lemma {:induction false} PlacesAscend(lines: seq<ChatLine>, older: seq<ChatLine>, i: nat, j: nat)
    requires i < j < |lines| && !Replaced(older, lines[i])
    ensures |Keep(lines[..i], older)| < |Keep(lines[..j], older)|
  {
    KeepPlaces(lines[..j], older, i);
    assert lines[..j][..i] == lines[..i];
  }

  lemma {:induction false} UnsignedHistoryStays(history: seq<ChatLine>)
    requires Unsigned(history)
    ensures Older(history) == history
  {
    if history != [] {
      UnsignedHistoryStays(history[..|history| - 1]);
      assert history == history[..|history| - 1] + [history[|history| - 1]];
    }
  }

  lemma {:induction false} UnsignedMerge(lines: seq<ChatLine>, history: seq<ChatLine>)
    requires Unsigned(history) && Unsigned(lines)
    ensures Merged(lines, history) == history + Keep(lines, history)
  {
    UnsignedHistoryStays(history);
    forall i | 0 <= i < |Keep(lines, history)| ensures Keep(lines, history)[i].signature.None? {
      KeepExactly(lines, history, Keep(lines, history)[i]);
    }
  }

  /** Where nothing is signed, the history comes first as it is, and surviving lines after it in their order. */
  lemma {:induction false} UnsignedKeepTheirOrder(lines: seq<ChatLine>, history: seq<ChatLine>, i: nat, j: nat)
    requires Unsigned(history) && Unsigned(lines)
    requires i < j < |lines| && Survives(history, lines[i]) && Survives(history, lines[j])
    ensures var merged := Merged(lines, history);
      && |history| <= |merged| && merged[..|history|] == history
      && exists p, q :: |history| <= p < q < |merged| && merged[p] == lines[i] && merged[q] == lines[j]
  {
    var keep := Keep(lines, history);
    UnsignedMerge(lines, history);
    UnsignedHistoryStays(history);
    ReplacedExactly(history, lines[i]);
    ReplacedExactly(history, lines[j]);
    KeepPlaces(lines, history, i);
    KeepPlaces(lines, history, j);
    PlacesAscend(lines, history, i, j);
    var p, q := |Keep(lines[..i], history)|, |Keep(lines[..j], history)|;
    assert (history + keep)[|history| + p] == lines[i] && (history + keep)[|history| + q] == lines[j];
  }

  function Time(line: ChatLine): int {
    match line.claimedAt
    case Some(t) => t
    case None => line.time
  }

  /** Earlier in the book: by claimed or else local time, then unsigned before signed, then by signature. */
  ghost predicate Precedes(a: ChatLine, b: ChatLine) {
    && Time(a) <= Time(b)
    && (Time(a) == Time(b) && a.signature.Some? ==>
          b.signature.Some? && (a.signature == b.signature || LexLess(a.signature.value, b.signature.value)))
  }

  lemma LinesTie()
    ensures WeakOrder(LineLess)
    ensures forall a, b :: !LineLess(b, a) <==> Precedes(a, b)
  {
    LexOrder();
    forall a, b ensures !LineLess(b, a) <==> Precedes(a, b) {
      if a.signature.Some? && b.signature.Some? { LexTotal(a.signature.value, b.signature.value); }
    }
  }

  /** Where something is signed, the merge is in that order, and lines that tie keep the order they had, the history's first. */
  lemma {:induction false} SignedAreInOrder(lines: seq<ChatLine>, history: seq<ChatLine>, z: ChatLine)
    requires AnySigned(Merged(lines, history))
    ensures forall i, j | 0 <= i < j < |Merged(lines, history)| ::
      Precedes(Merged(lines, history)[i], Merged(lines, history)[j])
    ensures Tied(Merged(lines, history), z, LineLess) == Tied(Older(history) + Keep(lines, Older(history)), z, LineLess)
  {
    var older, keep := Older(history), Keep(lines, Older(history));
    SomethingIsSigned(lines, history);
    LinesTie();
    SortInOrder(older + keep, LineLess);
    SortIsStable(older + keep, z, LineLess);
  }

  lemma {:induction false} SomethingIsSigned(lines: seq<ChatLine>, history: seq<ChatLine>)
    requires AnySigned(Merged(lines, history))
    ensures AnySigned(Older(history)) || AnySigned(Keep(lines, Older(history)))
  {
    var older, keep, merged := Older(history), Keep(lines, Older(history)), Merged(lines, history);
    var i :| 0 <= i < |merged| && merged[i].signature.Some?;
    MergedHasTheSame(lines, history);
    assert merged[i] in multiset(merged);
    assert merged[i] in older || merged[i] in keep;
  }

  // ------------------------------------------------------------ one line

  /** `b` is the same record as `a`, or the same message from a friend. */
  predicate SameMessage(a: ChatLine, b: ChatLine) {
    if b.signature.Some? then a.signature == b.signature
    else b.id != 0 && !b.outgoing && !b.system && a.id == b.id && !a.outgoing
  }

  /** A record or friend message is added once; own, system and numberless lines always. */
  lemma AddedOnce(lines: seq<ChatLine>, line: ChatLine)
    ensures if exists a | a in lines :: SameMessage(a, line) then Added(lines, line) == lines
            else
              && Added(lines, line)[|Added(lines, line)| - 1] == line
              && (|lines| < 500 ==> Added(lines, line) == lines + [line])
              && (|lines| >= 500 ==> Added(lines, line) == lines[|lines| - 499..] + [line])
  {
    if exists a | a in lines :: SameMessage(a, line) {
      var a :| a in lines && SameMessage(a, line);
      var i :| 0 <= i < |lines| && lines[i] == a;
      assert Repeats(lines, line);
    } else {
      assert !Repeats(lines, line) by {
        assert forall i | 0 <= i < |lines| :: lines[i] in lines;
      }
    }
  }

  /** An outgoing line's state goes to the last line with its number. */
  lemma {:induction false} LastOutgoingIsLast(lines: seq<ChatLine>, id: nat, j: nat)
    requires j < |lines| && lines[j].outgoing && lines[j].id == id
    ensures j <= LastOutgoing(lines, id)
  {
    if j < |lines| - 1 { LastOutgoingIsLast(lines[..|lines| - 1], id, j); }
  }
}
