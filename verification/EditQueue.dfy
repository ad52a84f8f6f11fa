/**
 The edit buffer as the passes use it
 (native/vertz-compiler-core/src/magic_string.rs). Positions index the
 characters of the original text.
 */
module EditQueue {
  import opened Pieces
  import opened EditMeaning
  import opened EditSweep

  /** Does an edit fall within or affect the range? Inserts count at both ends. */
  predicate Affects(e: Edit, a: nat, b: nat) {
    if e.Overwrite? then e.start < b && a < e.end else a <= e.pos <= b
  }

  function Relevant(edits: seq<Edit>, a: nat, b: nat): seq<Edit> {
    if edits == [] then []
    else if Affects(edits[0], a, b) then [edits[0]] + Relevant(edits[1..], a, b)
    else Relevant(edits[1..], a, b)
  }

  lemma {:induction false} RelevantLast(edits: seq<Edit>, e: Edit, a: nat, b: nat)
    ensures Relevant(edits + [e], a, b) == Relevant(edits, a, b) + if Affects(e, a, b) then [e] else []
  {
    if edits == [] {
      assert [] + [e] == [e];
      assert [e][1..] == [];
    } else {
      assert (edits + [e])[1..] == edits[1..] + [e];
      RelevantLast(edits[1..], e, a, b);
    }
  }

  lemma {:induction false} RelevantMember(edits: seq<Edit>, a: nat, b: nat, e: Edit)
    ensures e in Relevant(edits, a, b) <==> e in edits && Affects(e, a, b)
  {
    if edits != [] {
      RelevantMember(edits[1..], a, b, e);
    }
  }

  /** Away from the ends of the range, the filter keeps every group as it is. */
  lemma {:induction false} RelevantPick(edits: seq<Edit>, a: nat, b: nat, p: nat, rank: nat)
    requires a <= p <= b
    requires rank < 2 || (a < p < b && forall e :: e in edits && e.Overwrite? ==> e.start <= e.end)
    ensures Pick(Relevant(edits, a, b), p, rank) == Pick(edits, p, rank)
  {
    if edits != [] {
      RelevantPick(edits[1..], a, b, p, rank);
      if Affects(edits[0], a, b) {
        assert Relevant(edits, a, b)[1..] == Relevant(edits[1..], a, b);
      }
    }
  }

  /** At the start of the range only non-empty overwrites are kept. */
  lemma {:induction false} RelevantAtStart(edits: seq<Edit>, a: nat, b: nat)
    requires a < b
    ensures ZeroWidthText(Pick(Relevant(edits, a, b), a, 2)) == ""
    ensures FirstWideText(Pick(Relevant(edits, a, b), a, 2)) == FirstWideText(Pick(edits, a, 2))
  {
    if edits != [] {
      RelevantAtStart(edits[1..], a, b);
      if Affects(edits[0], a, b) {
        assert Relevant(edits, a, b)[1..] == Relevant(edits[1..], a, b);
      }
    }
  }

  /** No overwrite starting at the end of the range is kept. */
  lemma {:induction false} RelevantAtEnd(edits: seq<Edit>, a: nat, b: nat)
    ensures Pick(Relevant(edits, a, b), b, 2) == []
  {
    if edits != [] {
      RelevantAtEnd(edits[1..], a, b);
      if Affects(edits[0], a, b) {
        assert Relevant(edits, a, b)[1..] == Relevant(edits[1..], a, b);
      }
    }
  }

  lemma RelevantCover(edits: seq<Edit>, a: nat, b: nat, p: nat)
    requires a <= p <= b
    ensures Swallowed(Relevant(edits, a, b), p) <==> Swallowed(edits, p)
    ensures p < b ==> (Covered(Relevant(edits, a, b), p) <==> Covered(edits, p))
  {
    forall o ensures o in Relevant(edits, a, b) <==> o in edits && Affects(o, a, b) {
      RelevantMember(edits, a, b, o);
    }
  }

  lemma RelevantPiece(original: string, edits: seq<Edit>, a: nat, b: nat, p: nat)
    requires a <= p <= b <= |original| && AllInBounds(edits, |original|)
    ensures var f, g := Contributions(original, Relevant(edits, a, b)), Contributions(original, edits);
            && f(p).inserted == g(p).inserted
            && (p < b ==> f(p).replaced == g(p).replaced && f(p).kept == g(p).kept)
            && (a < p < b ==> f(p).zeroWidth == g(p).zeroWidth)
            && (p == a || p == b ==> f(p).zeroWidth == "")
            && (p == b ==> f(p).replaced == "")
  {
    RelevantCover(edits, a, b, p);
    RelevantPick(edits, a, b, p, 0);
    RelevantPick(edits, a, b, p, 1);
    if a < p < b {
      RelevantPick(edits, a, b, p, 2);
    } else if p == b {
      RelevantAtEnd(edits, a, b);
    } else {
      RelevantAtStart(edits, a, b);
    }
  }

  /** The filtered queue means, over the range, what `Slice` says of the full queue. */
  lemma RelevantSlice(original: string, edits: seq<Edit>, a: nat, b: nat)
    requires a <= b <= |original| && AllInBounds(edits, |original|)
    ensures UpTo(Contributions(original, Relevant(edits, a, b)), a, b) == Slice(original, edits, a, b)
  {
    forall p: nat | a <= p <= b
      ensures var f, g := Contributions(original, Relevant(edits, a, b)), Contributions(original, edits);
              && f(p).inserted == g(p).inserted
              && (p < b ==> f(p).replaced == g(p).replaced && f(p).kept == g(p).kept)
              && (a < p < b ==> f(p).zeroWidth == g(p).zeroWidth)
              && (p == a || p == b ==> f(p).zeroWidth == "")
              && (p == b ==> f(p).replaced == "")
    {
      RelevantPiece(original, edits, a, b, p);
    }
    UpToIsSlice(Contributions(original, Relevant(edits, a, b)), Contributions(original, edits), a, b);
  }

  lemma RelevantInRange(original: string, edits: seq<Edit>, events: seq<Event>, a: nat, b: nat)
    requires AllInBounds(edits, |original|) && Edits(events) == Relevant(edits, a, b)
    ensures AllInBounds(Edits(events), |original|)
    ensures forall x :: x in events ==> x.edit.At() <= b
  {
    EditsAt(events);
    forall e | e in Edits(events) ensures e.InBounds(|original|) && e.At() <= b {
      RelevantMember(edits, a, b, e);
    }
    forall x | x in events ensures x.edit.At() <= b {
      var i :| 0 <= i < |events| && events[i] == x;
      assert Edits(events)[i] == x.edit;
    }
  }

  lemma {:induction false} SortedMember(s: seq<Event>, x: Event)
    ensures x in SortEvents(s) <==> x in s
  {
    if s != [] {
      SortedMember(s[1..], x);
      InsertMember(s[0], SortEvents(s[1..]), x);
    }
  }

  lemma {:induction false} InsertMember(e: Event, s: seq<Event>, x: Event)
    ensures x in Insert(e, s) <==> x == e || x in s
  {
    if s != [] {
      InsertMember(e, s[1..], x);
    }
  }

  lemma NoEdits(original: string)
    ensures Whole(original, []) == original
  {
    var f := Contributions(original, []);
    forall p: nat | p <= |original|
      ensures f(p) == Piece("", "", "", if p < |original| then [original[p]] else "")
    {
      assert Pick([], p, 0) == Pick([], p, 1) == Pick([], p, 2) == [];
    }
    Untouched(original, f, 0);
    assert original[0..] == original;
  }

  class MagicString {
    const original: string
    var edits: seq<Edit>

    /** What both renderers need: every queued position lies in the original, and no range is inverted. */
    ghost predicate Valid()
      reads this
    {
      AllInBounds(edits, |original|)
    }

    constructor (source: string)
      ensures original == source && edits == [] && Valid()
    {
      original := source;
      edits := [];
    }

    method Overwrite(start: nat, end: nat, text: string)
      modifies this
      ensures edits == old(edits) + [Edit.Overwrite(start, end, text)]
    {
      edits := edits + [Edit.Overwrite(start, end, text)];
    }

    method PrependLeft(pos: nat, text: string)
      modifies this
      ensures edits == old(edits) + [InsertBefore(pos, text)]
    {
      edits := edits + [InsertBefore(pos, text)];
    }

    method AppendRight(pos: nat, text: string)
      modifies this
      ensures edits == old(edits) + [InsertAfter(pos, text)]
    {
      edits := edits + [InsertAfter(pos, text)];
    }

    method Prepend(text: string)
      modifies this
      ensures edits == old(edits) + [InsertBefore(0, text)]
    {
      edits := edits + [InsertBefore(0, text)];
    }

    method Append(text: string)
      modifies this
      ensures edits == old(edits) + [InsertAfter(|original|, text)]
    {
      edits := edits + [InsertAfter(|original|, text)];
    }

    /** The edits that fall within or affect a range, each with its place in the queue. */
    method Collect(start: nat, end: nat) returns (events: seq<Event>)
      ensures Edits(events) == Relevant(edits, start, end) && InQueueOrder(events)
    {
      events := [];
      for idx := 0 to |edits|
        invariant Edits(events) == Relevant(edits[..idx], start, end)
        invariant InQueueOrder(events) && forall x :: x in events ==> x.idx < idx
      {
        assert edits[..idx + 1] == edits[..idx] + [edits[idx]];
        RelevantLast(edits[..idx], edits[idx], start, end);
        if Affects(edits[idx], start, end) {
          EditsAppend(events, [Event(edits[idx], idx)]);
          events := events + [Event(edits[idx], idx)];
        }
      }
      assert edits[..|edits|] == edits;
    }

    /** One event of the slice renderer. */
    method ApplyInSlice(edit: Edit, end: nat, cursor0: nat, result0: string) returns (cursor: nat, result: string)
      requires edit.At() <= end <= |original|
      ensures Cursor(cursor, result) == Step(original, Cursor(cursor0, result0), edit)
    {
      cursor, result := cursor0, result0;
      if edit.At() < cursor {
        if edit.Overwrite? {
          cursor := Max(cursor, edit.end);
        }
        return;
      }
      match edit {
        case InsertBefore(pos, text) =>
          if cursor < pos {
            result := result + original[cursor..pos];
            cursor := pos;
          }
          result := result + text;
        case Overwrite(pos, oeEnd, text) =>
          if cursor < pos {
            result := result + original[cursor..pos];
          }
          result := result + text;
          cursor := Max(cursor, oeEnd);
        case InsertAfter(pos, text) =>
          if cursor <= pos <= end {
            var copyEnd := if pos < end then pos else end;
            if cursor < copyEnd {
              result := result + original[cursor..copyEnd];
            }
            cursor := pos;
          }
          result := result + text;
      }
    }

    /** One event of the whole-text renderer. */
    method ApplyInDisplay(edit: Edit, cursor0: nat, result0: string) returns (cursor: nat, result: string)
      requires edit.At() <= |original|
      ensures Cursor(cursor, result) == Step(original, Cursor(cursor0, result0), edit)
    {
      cursor, result := cursor0, result0;
      if edit.At() < cursor {
        if edit.Overwrite? {
          cursor := Max(cursor, edit.end);
        }
        return;
      }
      match edit {
        case InsertBefore(pos, text) =>
          if cursor < pos {
            result := result + original[cursor..pos];
            cursor := pos;
          }
          result := result + text;
        case Overwrite(pos, oeEnd, text) =>
          if cursor < pos {
            result := result + original[cursor..pos];
          }
          result := result + text;
          cursor := Max(cursor, oeEnd);
        case InsertAfter(pos, text) =>
          if cursor <= pos <= |original| {
            result := result + original[cursor..pos];
            cursor := pos;
          }
          result := result + text;
      }
    }

    method RenderSlice(events: seq<Event>, start: nat, end: nat) returns (result: string)
      requires start <= end <= |original|
      requires (forall x :: x in events ==> x.edit.At() <= end) && forall e :: e in Edits(events) ==>
        e.At() <= |original|
      ensures result == Settled(original, Sweep(original, Cursor(start, ""), Edits(events)), end)
    {
      EditsAt(events);
      var cursor: nat := start;
      result := "";
      for i := 0 to |events|
        invariant forall e :: e in Edits(events[i..]) ==> e.At() <= |original|
        invariant Sweep(original, Cursor(cursor, result), Edits(events[i..]))
               == Sweep(original, Cursor(start, ""), Edits(events))
      {
        assert events[i..][1..] == events[i + 1..];
        cursor, result := ApplyInSlice(events[i].edit, end, cursor, result);
      }
      if cursor < end {
        result := result + original[cursor..end];
      }
    }

    method RenderWhole(events: seq<Event>) returns (result: string)
      requires forall x :: x in events ==> x.edit.At() <= |original|
      requires forall e :: e in Edits(events) ==> e.At() <= |original|
      ensures result == Settled(original, Sweep(original, Cursor(0, ""), Edits(events)), |original|)
    {
      EditsAt(events);
      var cursor: nat := 0;
      result := "";
      for i := 0 to |events|
        invariant forall e :: e in Edits(events[i..]) ==> e.At() <= |original|
        invariant Sweep(original, Cursor(cursor, result), Edits(events[i..]))
               == Sweep(original, Cursor(0, ""), Edits(events))
      {
        assert events[i..][1..] == events[i + 1..];
        cursor, result := ApplyInDisplay(events[i].edit, cursor, result);
      }
      if cursor < |original| {
        result := result + original[cursor..];
      }
    }

    /** The source between two positions with the queued mutations applied. */
    method GetTransformedSlice(start: nat, end: nat) returns (result: string)
      requires Valid() && start <= end <= |original|
      ensures result == Slice(original, edits, start, end)
    {
      var events := Collect(start, end);
      RelevantInRange(original, edits, events, start, end);
      RelevantSlice(original, edits, start, end);
      SweepIsMeaning(original, events, start, end);
      if |events| == 0 {
        return original[start..end];
      }
      forall x | x in SortEvents(events) ensures x.edit.At() <= end {
        SortedMember(events, x);
      }
      result := RenderSlice(SortEvents(events), start, end);
    }

    /** The `Display` renderer: the whole edited text. */
    method Display() returns (result: string)
      requires Valid()
      ensures result == Whole(original, edits)
    {
      if |edits| == 0 {
        NoEdits(original);
        return original;
      }
      var events: seq<Event> := [];
      for idx := 0 to |edits|
        invariant |events| == idx && forall k :: 0 <= k < idx ==> events[k] == Event(edits[k], k)
      {
        events := events + [Event(edits[idx], idx)];
      }
      EditsAt(events);
      assert Edits(events) == edits;
      assert forall x :: x in events ==> x.edit in edits;
      SweepIsMeaning(original, events, 0, |original|);
      forall x | x in SortEvents(events) ensures x.edit.At() <= |original| {
        SortedMember(events, x);
      }
      result := RenderWhole(SortEvents(events));
    }
  }
}
