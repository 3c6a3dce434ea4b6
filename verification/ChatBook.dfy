/**
 A conversation's bounded list of lines (src/XivLantern.Core/ChatBook.cs).

 Strings are UTF-16 code units, so StringComparer.Ordinal is LexLess. Times are Unix milliseconds.
 The main result: whatever the order, grouping and repetition of catch-up loads, every view of a
 channel ends with the same signed lines in the same order.
 */
module ChatBook {
  import opened ByteStrings
  import opened HexText
  import opened Results
  import opened Ranking

  datatype LineState = NoState | Pending | Delivered | Failed

  datatype ChatLine = ChatLine(
    time: int, from: Text, text: Text, outgoing: bool, id: nat, state: LineState, system: bool,
    verified: bool, signature: Option<Text>, claimedAt: Option<int>, signedAuthor: Option<Text>)

  const MAX_LINES := 500

  // ------------------------------------------------------------ single steps on the list

  function LastLines(lines: seq<ChatLine>): seq<ChatLine> {
    if |lines| > MAX_LINES then lines[|lines| - MAX_LINES..] else lines
  }

  predicate HasSignature(lines: seq<ChatLine>, signature: Text) {
    exists i :: 0 <= i < |lines| && lines[i].signature == Some(signature)
  }

  /** Already shown: the same signed record, or the same incoming friend message. */
  predicate Repeats(lines: seq<ChatLine>, line: ChatLine) {
    if line.signature.Some? then HasSignature(lines, line.signature.value)
    else
      && line.id != 0 && !line.outgoing && !line.system
      && exists i :: 0 <= i < |lines| && lines[i].id == line.id && !lines[i].outgoing
  }

  function Added(lines: seq<ChatLine>, line: ChatLine): seq<ChatLine> {
    if Repeats(lines, line) then lines else LastLines(lines + [line])
  }

  function SortTime(line: ChatLine): int {
    if line.claimedAt.Some? then line.claimedAt.value else line.time
  }

  /** OrderBy(claimed time or local time), ThenBy(signature): a missing signature comes first. */
  predicate LineLess(a: ChatLine, b: ChatLine) {
    || SortTime(a) < SortTime(b)
    || (SortTime(a) == SortTime(b) && b.signature.Some?
        && (a.signature.None? || LexLess(a.signature.value, b.signature.value)))
  }

  /** The loaded lines, each signature once. */
  function Older(history: seq<ChatLine>): seq<ChatLine> {
    if history == [] then []
    else
      var front, last := history[..|history| - 1], history[|history| - 1];
      Older(front) + if last.signature.Some? && HasSignature(front, last.signature.value) then [] else [last]
  }

  predicate HasMessage(lines: seq<ChatLine>, id: nat, outgoing: bool) {
    exists i :: 0 <= i < |lines| && lines[i].signature.None? && lines[i].id == id && lines[i].outgoing == outgoing
  }

  /** Loaded lines replace a listed line of the same signature, or of the same message id and direction. */
  predicate Replaced(older: seq<ChatLine>, line: ChatLine) {
    if line.signature.Some? then HasSignature(older, line.signature.value)
    else line.id != 0 && HasMessage(older, line.id, line.outgoing)
  }

  function Keep(lines: seq<ChatLine>, older: seq<ChatLine>): seq<ChatLine> {
    if lines == [] then []
    else
      var last := lines[|lines| - 1];
      Keep(lines[..|lines| - 1], older) + if Replaced(older, last) then [] else [last]
  }

  predicate AnySigned(lines: seq<ChatLine>) {
    exists i :: 0 <= i < |lines| && lines[i].signature.Some?
  }

  /** The loaded lines and the surviving ones, sorted if any of them is signed. */
  function Merged(lines: seq<ChatLine>, history: seq<ChatLine>): seq<ChatLine> {
    var older := Older(history);
    var keep := Keep(lines, older);
    if AnySigned(older) || AnySigned(keep) then Sort(older + keep, LineLess) else older + keep
  }

  function Loaded(lines: seq<ChatLine>, history: seq<ChatLine>): seq<ChatLine> {
    LastLines(Merged(lines, history))
  }

  function LastOutgoing(lines: seq<ChatLine>, id: nat): (i: int)
    ensures -1 <= i < |lines|
    ensures i >= 0 ==> lines[i].outgoing && lines[i].id == id
  {
    if lines == [] then -1
    else if lines[|lines| - 1].outgoing && lines[|lines| - 1].id == id then |lines| - 1
    else LastOutgoing(lines[..|lines| - 1], id)
  }

  class Conversation {
    var lines: seq<ChatLine>
    var unread: nat
    var version: nat

    constructor ()
      ensures lines == [] && unread == 0 && version == 0
    {
      lines, unread, version := [], 0, 0;
    }

    method Add(line: ChatLine, countUnread: bool)
      modifies this
      ensures lines == Added(old(lines), line)
      ensures var isNew := !Repeats(old(lines), line);
        && version == old(version) + (if isNew then 1 else 0)
        && unread == old(unread) + (if isNew && countUnread && !line.outgoing && !line.system then 1 else 0)
    {
      if Repeats(lines, line) { return; }
      lines := lines + [line];
      if |lines| > MAX_LINES { lines := lines[|lines| - MAX_LINES..]; }
      if countUnread && !line.outgoing && !line.system { unread := unread + 1; }
      version := version + 1;
    }

    method Mark(id: nat, state: LineState) returns (found: bool)
      modifies this
      ensures var i := LastOutgoing(old(lines), id);
        && found == (i >= 0) && unread == old(unread)
        && lines == (if i < 0 then old(lines) else old(lines)[i := old(lines)[i].(state := state)])
        && version == old(version) + if found then 1 else 0
    {
      var i := |lines| - 1;
      assert lines[..i + 1] == lines;
      while i >= 0 && !(lines[i].outgoing && lines[i].id == id)
        invariant -1 <= i < |lines|
        invariant lines == old(lines) && version == old(version) && unread == old(unread)
        invariant LastOutgoing(lines[..i + 1], id) == LastOutgoing(lines, id)
      {
        assert lines[..i + 1][..i] == lines[..i];
        i := i - 1;
      }
      if i < 0 { return false; }
      lines := lines[i := lines[i].(state := state)];
      version := version + 1;
      found := true;
    }

    method MarkRead()
      modifies this`unread
      ensures unread == 0
    {
      unread := 0;
    }

    method Clear()
      modifies this
      ensures lines == [] && unread == 0 && version == old(version) + 1
    {
      lines, unread, version := [], 0, version + 1;
    }

    /** Catch-up never counts as unread. */
    method LoadHistory(history: seq<ChatLine>)
      modifies this`lines, this`version
      ensures lines == Loaded(old(lines), history)
      ensures version == old(version) + 1
    {
      var older := WithoutRepeats(history);
      var keep := Surviving(lines, older);
      var merged := older + keep;
      if AnySigned(older) || AnySigned(keep) { merged := Sort(merged, LineLess); }
      lines := LastLines(merged);
      version := version + 1;
    }
  }

  /** The history without the lines whose signature an earlier line already has. */
  method WithoutRepeats(history: seq<ChatLine>) returns (older: seq<ChatLine>)
    ensures older == Older(history)
  {
    var signatures: set<Text> := {};
    older := [];
    for i := 0 to |history|
      invariant older == Older(history[..i])
      invariant forall t :: t in signatures <==> HasSignature(history[..i], t)
    {
      OlderStep(history, i);
      var line := history[i];
      if line.signature.None? {
        older := older + [line];
      } else if line.signature.value !in signatures {
        signatures := signatures + {line.signature.value};
        older := older + [line];
      }
    }
    assert history[..|history|] == history;
  }

  /** The lines on screen that the history does not bring again. */
  method Surviving(lines: seq<ChatLine>, older: seq<ChatLine>) returns (keep: seq<ChatLine>)
    ensures keep == Keep(lines, older)
  {
    keep := [];
    for i := 0 to |lines|
      invariant keep == Keep(lines[..i], older)
    {
      assert lines[..i + 1][..i] == lines[..i];
      if !Replaced(older, lines[i]) { keep := keep + [lines[i]]; }
    }
    assert lines[..|lines|] == lines;
  }

  lemma OlderStep(history: seq<ChatLine>, i: nat)
    requires i < |history|
    ensures Older(history[..i + 1]) == Older(history[..i]) +
      if history[i].signature.Some? && HasSignature(history[..i], history[i].signature.value) then [] else [history[i]]
    ensures forall t :: HasSignature(history[..i + 1], t) <==>
      HasSignature(history[..i], t) || history[i].signature == Some(t)
  {
    assert history[..i + 1][..i] == history[..i];
    forall t
      ensures HasSignature(history[..i + 1], t) <==>
        HasSignature(history[..i], t) || history[i].signature == Some(t)
    {
      HasSignatureStep(history[..i], history[i], t);
      assert history[..i + 1] == history[..i] + [history[i]];
    }
  }

  lemma HasSignatureStep(lines: seq<ChatLine>, line: ChatLine, t: Text)
    ensures HasSignature(lines + [line], t) <==> HasSignature(lines, t) || line.signature == Some(t)
  {
    if HasSignature(lines, t) {
      var i :| 0 <= i < |lines| && lines[i].signature == Some(t);
      assert (lines + [line])[i] == lines[i];
    }
    if line.signature == Some(t) { assert (lines + [line])[|lines|] == line; }
  }
}
