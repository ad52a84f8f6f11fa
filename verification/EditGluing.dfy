/**
 Slices with some nodes already transformed: the gaps are read from the buffer
 and glued with the new texts
 (native/vertz-compiler-core/src/jsx_transformer.rs). This is the same as
 queuing the new texts as overwrites and slicing once.
 */
module EditGluing {
  import Pieces
  import opened EditMeaning
  import EditQueue

  /** A node of the source and the text it becomes. */
  datatype Placed = Placed(start: nat, end: nat, text: string)

  ghost predicate InOrder(nodes: seq<Placed>, a: nat, b: nat) {
    if nodes == [] then a <= b
    else a <= nodes[0].start < nodes[0].end && InOrder(nodes[1..], nodes[0].end, b)
  }

  lemma {:induction false} OrderBounds(nodes: seq<Placed>, a: nat, b: nat)
    requires InOrder(nodes, a, b)
    ensures a <= b
    ensures forall k :: 0 <= k < |nodes| ==> a <= nodes[k].start < nodes[k].end <= b
    decreases |nodes|
  {
    if nodes != [] {
      OrderBounds(nodes[1..], nodes[0].end, b);
    }
  }

  /** Gaps and new texts, gap by gap; an empty gap contributes nothing. */
  ghost function Glued(original: string, edits: seq<Edit>, nodes: seq<Placed>, a: nat, b: nat): string
    requires InOrder(nodes, a, b) && b <= |original|
    decreases |nodes|
  {
    OrderBounds(nodes, a, b);
    if nodes == [] then if a < b then Slice(original, edits, a, b) else ""
    else (if a < nodes[0].start then Slice(original, edits, a, nodes[0].start) else "") + nodes[0].text
         + Glued(original, edits, nodes[1..], nodes[0].end, b)
  }

  /** Without nodes the slice is read in one piece. */
  ghost function GluedText(original: string, edits: seq<Edit>, nodes: seq<Placed>, a: nat, b: nat): string
    requires InOrder(nodes, a, b) && a <= b <= |original|
  {
    if nodes == [] then Slice(original, edits, a, b) else Glued(original, edits, nodes, a, b)
  }

  function Overwrites(nodes: seq<Placed>): seq<Edit> {
    if nodes == [] then [] else [Overwrite(nodes[0].start, nodes[0].end, nodes[0].text)] + Overwrites(nodes[1..])
  }

  /** `slice_with_transformed_jsx`, once the nodes and their new texts are known. */
  method SliceWithTransformedJsx(ms: EditQueue.MagicString, nodes: seq<Placed>, start: nat, end: nat)
    returns (result: string)
    requires ms.Valid() && InOrder(nodes, start, end) && end <= |ms.original|
    ensures start <= end && result == GluedText(ms.original, ms.edits, nodes, start, end)
  {
    OrderBounds(nodes, start, end);
    if nodes == [] {
      result := ms.GetTransformedSlice(start, end);
      return;
    }
    result := "";
    var cursor: nat := start;
    assert nodes[0..] == nodes;
    for k := 0 to |nodes|
      invariant InOrder(nodes[k..], cursor, end)
      invariant result + Glued(ms.original, ms.edits, nodes[k..], cursor, end)
        == Glued(ms.original, ms.edits, nodes, start, end)
    {
      var node := nodes[k];
      GluedStep(ms.original, ms.edits, nodes, k, cursor, end, result);
      if cursor < node.start {
        var gap := ms.GetTransformedSlice(cursor, node.start);
        result := result + gap;
      } else {
        assert result + "" == result;
      }
      result := result + node.text;
      cursor := node.end;
    }
    if cursor < end {
      var gap := ms.GetTransformedSlice(cursor, end);
      result := result + gap;
    }
  }

  /** The text of one step, moved from what is to come to what is there. */
  lemma GluedStep(original: string, edits: seq<Edit>, nodes: seq<Placed>, k: nat, cursor: nat, end: nat, result: string)
    requires k < |nodes| && InOrder(nodes[k..], cursor, end) && end <= |original|
    ensures cursor <= nodes[k].start < nodes[k].end <= end && InOrder(nodes[k + 1..], nodes[k].end, end)
    ensures result + Glued(original, edits, nodes[k..], cursor, end)
         == ((result + if cursor < nodes[k].start then Slice(original, edits, cursor, nodes[k].start) else "")
           + nodes[k].text)
            + Glued(original, edits, nodes[k + 1..], nodes[k].end, end)
  {
    OrderBounds(nodes[k..], cursor, end);
    assert nodes[k..][0] == nodes[k] && nodes[k..][1..] == nodes[k + 1..];
    Chunks(result, if cursor < nodes[k].start then Slice(original, edits, cursor, nodes[k].start) else "",
           nodes[k].text,
           Glued(original, edits, nodes[k + 1..], nodes[k].end, end));
  }

  lemma Chunks(result: string, gap: string, text: string, rest: string)
    ensures result + (gap + text + rest) == ((result + gap) + text) + rest
  {
  }

  // ---- when gluing is slicing ----

  /**
   At the node's boundaries: no overwrite covers its first character, no
   zero-width overwrite with text stands at either end.
   */
  ghost predicate IsClear(edits: seq<Edit>, node: Placed) {
    !Covered(edits, node.start) && ZeroWidth(edits, node.start) == "" && ZeroWidth(edits, node.end) == ""
  }

  /** No insert is queued inside a gap of width zero. */
  ghost predicate NoEdgeInserts(edits: seq<Edit>, nodes: seq<Placed>, a: nat, b: nat)
    decreases |nodes|
  {
    if nodes == [] then a == b ==> Inserted(edits, a) == ""
    else (a == nodes[0].start ==> Inserted(edits, a) == "") && NoEdgeInserts(edits, nodes[1..], nodes[0].end, b)
  }

  lemma {:induction false} PickAppend(x: seq<Edit>, y: seq<Edit>, p: nat, rank: nat)
    ensures Pick(x + y, p, rank) == Pick(x, p, rank) + Pick(y, p, rank)
  {
    if x == [] {
      assert x + y == y;
    } else {
      assert (x + y)[1..] == x[1..] + y;
      PickAppend(x[1..], y, p, rank);
    }
  }

  lemma {:induction false} OverwritesAre(nodes: seq<Placed>)
    ensures |Overwrites(nodes)| == |nodes|
    ensures forall k :: 0 <= k < |nodes| ==>
      Overwrites(nodes)[k] == Overwrite(nodes[k].start, nodes[k].end, nodes[k].text)
  {
    if nodes != [] {
      OverwritesAre(nodes[1..]);
    }
  }

  /** Only the node that starts at `p` queues an overwrite there. */
  lemma {:induction false} PickOverwrites(nodes: seq<Placed>, a: nat, b: nat, p: nat)
    requires InOrder(nodes, a, b)
    ensures Pick(Overwrites(nodes), p, 0) == [] && Pick(Overwrites(nodes), p, 1) == []
    ensures forall k :: 0 <= k < |nodes| && nodes[k].start == p ==>
      Pick(Overwrites(nodes), p, 2) == [Overwrite(nodes[k].start, nodes[k].end, nodes[k].text)]
    ensures (forall k :: 0 <= k < |nodes| ==> nodes[k].start != p) ==> Pick(Overwrites(nodes), p, 2) == []
    decreases |nodes|
  {
    if nodes != [] {
      OrderBounds(nodes, a, b);
      OrderBounds(nodes[1..], nodes[0].end, b);
      PickOverwrites(nodes[1..], nodes[0].end, b, p);
      assert Overwrites(nodes)[1..] == Overwrites(nodes[1..]);
      forall k | 0 <= k < |nodes| ensures k > 0 ==> nodes[k] == nodes[1..][k - 1] {
      }
    }
  }

  lemma CoverAppend(x: seq<Edit>, y: seq<Edit>, p: nat)
    ensures Swallowed(x + y, p) <==> Swallowed(x, p) || Swallowed(y, p)
    ensures Covered(x + y, p) <==> Covered(x, p) || Covered(y, p)
  {
    forall o ensures o in x + y <==> o in x || o in y {
    }
  }

  lemma {:induction false} WideAppend(os: seq<Edit>, o: Edit)
    requires forall x :: x in os ==> !(x.Overwrite? && x.start < x.end)
    requires o.Overwrite? && o.start < o.end
    ensures FirstWideText(os + [o]) == o.text && ZeroWidthText(os + [o]) == ZeroWidthText(os)
  {
    if os == [] {
      assert os + [o] == [o];
    } else {
      assert (os + [o])[1..] == os[1..] + [o];
      WideAppend(os[1..], o);
    }
  }

  lemma OverwritesCover(nodes: seq<Placed>, p: nat)
    ensures Swallowed(Overwrites(nodes), p) <==> exists k :: 0 <= k < |nodes| && nodes[k].start < p < nodes[k].end
    ensures Covered(Overwrites(nodes), p) <==> exists k :: 0 <= k < |nodes| && nodes[k].start <= p < nodes[k].end
  {
    OverwritesAre(nodes);
    if Swallowed(Overwrites(nodes), p) {
      var o :| o in Overwrites(nodes) && o.Overwrite? && o.start < p < o.end;
      var k :| 0 <= k < |nodes| && Overwrites(nodes)[k] == o;
    }
    if Covered(Overwrites(nodes), p) {
      var o :| o in Overwrites(nodes) && o.Overwrite? && o.start <= p < o.end;
      var k :| 0 <= k < |nodes| && Overwrites(nodes)[k] == o;
    }
    if k :| 0 <= k < |nodes| && nodes[k].start <= p < nodes[k].end {
      assert Overwrites(nodes)[k] in Overwrites(nodes);
    }
    if k :| 0 <= k < |nodes| && nodes[k].start < p < nodes[k].end {
      assert Overwrites(nodes)[k] in Overwrites(nodes);
    }
  }

  /** Where the extra overwrites do not start or reach, nothing changes. */
  lemma PieceOutside(original: string, edits: seq<Edit>, nodes: seq<Placed>, a: nat, b: nat, p: nat)
    requires InOrder(nodes, a, b)
    requires forall k :: 0 <= k < |nodes| ==> p < nodes[k].start || nodes[k].end <= p
    ensures Contributions(original, edits + Overwrites(nodes))(p) == Contributions(original, edits)(p)
  {
    var more := Overwrites(nodes);
    PickAppend(edits, more, p, 0);
    PickAppend(edits, more, p, 1);
    PickAppend(edits, more, p, 2);
    PickOverwrites(nodes, a, b, p);
    CoverAppend(edits, more, p);
    OverwritesCover(nodes, p);
    OrderBounds(nodes, a, b);
    forall rank: nat | rank <= 2 ensures Pick(edits + more, p, rank) == Pick(edits, p, rank) {
      assert Pick(edits, p, rank) + [] == Pick(edits, p, rank);
    }
  }

  /** At the start of a node its text replaces. */
  lemma PieceAtStart(original: string, edits: seq<Edit>, nodes: seq<Placed>, a: nat, b: nat, k: nat)
    requires InOrder(nodes, a, b) && k < |nodes| && IsClear(edits, nodes[k])
    ensures var p := nodes[k].start;
      var g := Contributions(original, edits + Overwrites(nodes))(p);
      g.inserted == Contributions(original, edits)(p).inserted && g.zeroWidth == "" && g.replaced == nodes[k].text
        && g.kept == ""
  {
    var p, more := nodes[k].start, Overwrites(nodes);
    PickAppend(edits, more, p, 0);
    PickAppend(edits, more, p, 1);
    PickAppend(edits, more, p, 2);
    PickOverwrites(nodes, a, b, p);
    CoverAppend(edits, more, p);
    OverwritesCover(nodes, p);
    StartsApart(nodes, a, b, k);
    OrderBounds(nodes, a, b);
    assert nodes[k].start <= p < nodes[k].end;
    assert Pick(edits, p, 0) + [] == Pick(edits, p, 0) && Pick(edits, p, 1) + [] == Pick(edits, p, 1);
    forall x | x in Pick(edits, p, 2) ensures !(x.Overwrite? && x.start < x.end) {
      PickMember(edits, p, 2, x);
    }
    WideAppend(Pick(edits, p, 2), Overwrite(p, nodes[k].end, nodes[k].text));
  }

  lemma {:induction false} StartsApart(nodes: seq<Placed>, a: nat, b: nat, k: nat)
    requires InOrder(nodes, a, b) && k < |nodes|
    ensures forall j :: 0 <= j < |nodes| && j != k ==> nodes[j].end <= nodes[k].start || nodes[k].end <= nodes[j].start
    decreases |nodes|
  {
    OrderBounds(nodes[1..], nodes[0].end, b);
    if k > 0 {
      StartsApart(nodes[1..], nodes[0].end, b, k - 1);
      forall j | 0 <= j < |nodes| && j != k ensures nodes[j].end <= nodes[k].start || nodes[k].end <= nodes[j].start {
        if j > 0 {
          assert nodes[j] == nodes[1..][j - 1];
        }
        assert nodes[k] == nodes[1..][k - 1];
      }
    } else {
      forall j | 0 < j < |nodes| ensures nodes[0].end <= nodes[j].start {
        assert nodes[j] == nodes[1..][j - 1];
      }
    }
  }

  /** Inside a node nothing else is left. */
  lemma PieceInside(original: string, edits: seq<Edit>, nodes: seq<Placed>, k: nat, p: nat)
    requires k < |nodes| && nodes[k].start < p < nodes[k].end
    ensures Contributions(original, edits + Overwrites(nodes))(p) == Pieces.Piece("", "", "", "")
  {
    CoverAppend(edits, Overwrites(nodes), p);
    OverwritesCover(nodes, p);
  }

  // ---- the pieces glue ----

  /** From node `k` on, `g` is `f` with the nodes' texts in place. */
  ghost predicate PlacedIn(f: nat -> Pieces.Piece, g: nat -> Pieces.Piece, nodes: seq<Placed>, a: nat, b: nat)
    requires InOrder(nodes, a, b)
    decreases |nodes|
  {
    if nodes == [] then forall p: nat :: a <= p <= b ==> g(p) == f(p)
    else
      var s, e := nodes[0].start, nodes[0].end;
      && (forall p: nat :: a <= p < s ==> g(p) == f(p))
      && g(s).inserted == f(s).inserted && g(s).zeroWidth == "" && g(s).replaced == nodes[0].text && g(s).kept == ""
      && (forall p: nat :: s < p < e ==> g(p) == Pieces.Piece("", "", "", ""))
      && f(e).zeroWidth == "" && g(e).zeroWidth == "" && PlacedIn(f, g, nodes[1..], e, b)
  }

  lemma {:induction false} NothingBetween(g: nat -> Pieces.Piece, lo: nat, hi: nat)
    requires lo <= hi && forall p: nat :: lo <= p < hi ==> g(p) == Pieces.Piece("", "", "", "")
    ensures Pieces.Between(g, lo, hi) == ""
    decreases hi - lo
  {
    if lo < hi {
      NothingBetween(g, lo + 1, hi);
    }
  }

  /** A slice from a gap's end over one node. */
  lemma SliceOverNode(g: nat -> Pieces.Piece, s: nat, e: nat, b: nat, text: string)
    requires s < e <= b && g(s).replaced == text && g(s).kept == ""
    requires (forall p: nat :: s < p < e ==> g(p) == Pieces.Piece("", "", "", "")) && g(e).zeroWidth == ""
    ensures Pieces.SliceOf(g, s, b) == g(s).inserted + text + Pieces.SliceOf(g, e, b)
  {
    NothingBetween(g, s + 1, e);
    assert Pieces.Inside(g, s, e) == text;
    if e < b {
      Pieces.InsideSplit(g, s, e, b);
      Tidy(g(s).inserted, text, g(e).inserted, Pieces.Inside(g, e, b), g(b).inserted);
    }
  }

  lemma Tidy(i: string, text: string, j: string, inside: string, last: string)
    ensures i + (text + j + "" + inside) + last == i + text + (j + inside + last)
  {
  }

  /** A slice over a gap in front of a place without zero-width text. */
  lemma SliceOverGap(g: nat -> Pieces.Piece, a: nat, s: nat, b: nat, rest: string)
    requires a < s < b && g(s).zeroWidth == ""
    requires Pieces.SliceOf(g, s, b) == g(s).inserted + rest
    ensures Pieces.SliceOf(g, a, b) == Pieces.SliceOf(g, a, s) + rest
  {
    Pieces.InsideSplit(g, a, s, b);
    var x, i, y, z := g(a).inserted, g(s).inserted, Pieces.Inside(g, s, b), g(b).inserted;
    Gap(x, Pieces.Inside(g, a, s), i, y, z, rest);
  }

  lemma Gap(x: string, first: string, i: string, y: string, z: string, rest: string)
    requires i + y + z == i + rest
    ensures x + (first + i + "" + y) + z == x + first + i + rest
  {
    assert x + (first + i + "" + y) + z == x + first + (i + y + z);
  }

  /** A gap, possibly empty, then one node. */
  lemma StepOver(g: nat -> Pieces.Piece, a: nat, s: nat, e: nat, b: nat, text: string)
    requires a <= s < e <= b && g(s).replaced == text && g(s).kept == "" && g(s).zeroWidth == ""
    requires (forall p: nat :: s < p < e ==> g(p) == Pieces.Piece("", "", "", "")) && g(e).zeroWidth == ""
    requires a == s ==> g(a).inserted == ""
    ensures Pieces.SliceOf(g, a, b) == (if a < s then Pieces.SliceOf(g, a, s) else "") + text + Pieces.SliceOf(g, e, b)
  {
    var rest := Pieces.SliceOf(g, e, b);
    SliceOverNode(g, s, e, b, text);
    if a < s {
      Thirds(g(s).inserted, text, rest);
      SliceOverGap(g, a, s, b, text + rest);
      Thirds(Pieces.SliceOf(g, a, s), text, rest);
    }
  }

  lemma Thirds(x: string, y: string, z: string)
    ensures x + y + z == x + (y + z)
  {
  }

  ghost function GluedPieces(f: nat -> Pieces.Piece, nodes: seq<Placed>, a: nat, b: nat): string
    requires InOrder(nodes, a, b)
    decreases |nodes|
  {
    OrderBounds(nodes, a, b);
    if nodes == [] then if a < b then Pieces.SliceOf(f, a, b) else ""
    else (if a < nodes[0].start then Pieces.SliceOf(f, a, nodes[0].start) else "") + nodes[0].text
         + GluedPieces(f, nodes[1..], nodes[0].end, b)
  }

  ghost predicate NoEdges(f: nat -> Pieces.Piece, nodes: seq<Placed>, a: nat, b: nat)
    decreases |nodes|
  {
    if nodes == [] then a == b ==> f(a).inserted == ""
    else (a == nodes[0].start ==> f(a).inserted == "") && NoEdges(f, nodes[1..], nodes[0].end, b)
  }

  lemma SameSlice(f: nat -> Pieces.Piece, g: nat -> Pieces.Piece, a: nat, s: nat)
    requires a <= s && g(s).inserted == f(s).inserted
    requires forall p: nat :: a <= p < s ==> g(p) == f(p)
    ensures Pieces.SliceOf(g, a, s) == Pieces.SliceOf(f, a, s)
  {
    if a < s {
      Pieces.SameBetween(g, f, a + 1, s);
    }
  }

  lemma {:induction false} GluedIsSliceOf(f: nat -> Pieces.Piece, g: nat -> Pieces.Piece, nodes: seq<Placed>, a: nat,
                                          b: nat)
    requires InOrder(nodes, a, b) && PlacedIn(f, g, nodes, a, b) && NoEdges(f, nodes, a, b)
    ensures a <= b
    ensures GluedPieces(f, nodes, a, b) == Pieces.SliceOf(g, a, b)
    decreases |nodes|
  {
    OrderBounds(nodes, a, b);
    if nodes == [] {
      SameSlice(f, g, a, b);
    } else {
      var s, e, text := nodes[0].start, nodes[0].end, nodes[0].text;
      GluedIsSliceOf(f, g, nodes[1..], e, b);
      StepOver(g, a, s, e, b, text);
      if a < s {
        SameSlice(f, g, a, s);
      }
    }
  }

  lemma {:induction false} GluedAsPieces(original: string, edits: seq<Edit>, nodes: seq<Placed>, a: nat, b: nat)
    requires InOrder(nodes, a, b) && b <= |original|
    ensures Glued(original, edits, nodes, a, b) == GluedPieces(Contributions(original, edits), nodes, a, b)
    decreases |nodes|
  {
    if nodes != [] {
      OrderBounds(nodes, a, b);
      GluedAsPieces(original, edits, nodes[1..], nodes[0].end, b);
    }
  }

  lemma {:induction false} NoEdgesAsPieces(original: string, edits: seq<Edit>, nodes: seq<Placed>, a: nat, b: nat)
    requires NoEdgeInserts(edits, nodes, a, b)
    ensures NoEdges(Contributions(original, edits), nodes, a, b)
    decreases |nodes|
  {
    if nodes != [] {
      NoEdgesAsPieces(original, edits, nodes[1..], nodes[0].end, b);
    }
  }

  predicate IsOutside(nodes: seq<Placed>, p: nat) {
    forall k :: 0 <= k < |nodes| ==> p < nodes[k].start || nodes[k].end <= p
  }

  ghost predicate PutIn(f: nat -> Pieces.Piece, g: nat -> Pieces.Piece, node: Placed) {
    var s, e := node.start, node.end;
    && g(s).inserted == f(s).inserted && g(s).zeroWidth == "" && g(s).replaced == node.text && g(s).kept == ""
    && (forall p: nat :: s < p < e ==> g(p) == Pieces.Piece("", "", "", ""))
    && f(e).zeroWidth == "" && g(e).zeroWidth == ""
  }

  lemma {:induction false} AllPlaced(f: nat -> Pieces.Piece, g: nat -> Pieces.Piece, nodes: seq<Placed>, a: nat, b: nat)
    requires InOrder(nodes, a, b)
    requires forall p: nat :: a <= p && IsOutside(nodes, p) ==> g(p) == f(p)
    requires forall k :: 0 <= k < |nodes| ==> PutIn(f, g, nodes[k])
    ensures PlacedIn(f, g, nodes, a, b)
    decreases |nodes|
  {
    OrderBounds(nodes, a, b);
    if nodes == [] {
      forall p: nat | a <= p <= b ensures g(p) == f(p) {
        assert IsOutside(nodes, p);
      }
    } else {
      var s, e := nodes[0].start, nodes[0].end;
      OrderBounds(nodes[1..], e, b);
      forall p: nat | a <= p < s ensures g(p) == f(p) {
        AheadOutside(nodes, a, b, p);
      }
      assert PutIn(f, g, nodes[0]);
      forall p: nat | e <= p && IsOutside(nodes[1..], p) ensures g(p) == f(p) {
        TailOutside(nodes, p);
      }
      AllPlaced(f, g, nodes[1..], e, b);
    }
  }

  lemma AheadOutside(nodes: seq<Placed>, a: nat, b: nat, p: nat)
    requires InOrder(nodes, a, b) && nodes != [] && p < nodes[0].start
    ensures IsOutside(nodes, p)
  {
    forall k | 0 <= k < |nodes| ensures p < nodes[k].start {
      Ahead(nodes, a, b, 0, k);
    }
  }

  lemma TailOutside(nodes: seq<Placed>, p: nat)
    requires nodes != [] && nodes[0].end <= p && IsOutside(nodes[1..], p)
    ensures IsOutside(nodes, p)
  {
    forall k | 0 <= k < |nodes| ensures p < nodes[k].start || nodes[k].end <= p {
      if k > 0 {
        assert nodes[k] == nodes[1..][k - 1];
      }
    }
  }

  /** The queued overwrites put every node's text in its place. */
  lemma OverwritesPlace(original: string, edits: seq<Edit>, nodes: seq<Placed>, a: nat, b: nat)
    requires InOrder(nodes, a, b) && forall j :: 0 <= j < |nodes| ==> IsClear(edits, nodes[j])
    ensures PlacedIn(Contributions(original, edits), Contributions(original, edits + Overwrites(nodes)), nodes, a, b)
  {
    var f, g := Contributions(original, edits), Contributions(original, edits + Overwrites(nodes));
    forall p: nat | a <= p && IsOutside(nodes, p) ensures g(p) == f(p) {
      PieceOutside(original, edits, nodes, a, b, p);
    }
    forall k | 0 <= k < |nodes| ensures PutIn(f, g, nodes[k]) {
      PieceAtStart(original, edits, nodes, a, b, k);
      forall p: nat | nodes[k].start < p < nodes[k].end ensures g(p) == Pieces.Piece("", "", "", "") {
        PieceInside(original, edits, nodes, k, p);
      }
      NoZeroWidth(original, edits, nodes, a, b, k);
    }
    AllPlaced(f, g, nodes, a, b);
  }

  lemma {:induction false} Ahead(nodes: seq<Placed>, a: nat, b: nat, i: nat, j: nat)
    requires InOrder(nodes, a, b) && i <= j < |nodes|
    ensures nodes[i].start <= nodes[j].start && nodes[i].end <= nodes[j].end
    decreases |nodes|
  {
    OrderBounds(nodes[1..], nodes[0].end, b);
    if i > 0 {
      Ahead(nodes[1..], nodes[0].end, b, i - 1, j - 1);
    } else if j > 0 {
      assert nodes[j] == nodes[1..][j - 1];
    }
  }

  /** At the end of a node no zero-width text appears. */
  lemma NoZeroWidth(original: string, edits: seq<Edit>, nodes: seq<Placed>, a: nat, b: nat, k: nat)
    requires InOrder(nodes, a, b) && k < |nodes|
    requires forall j :: 0 <= j < |nodes| ==> IsClear(edits, nodes[j])
    ensures Contributions(original, edits + Overwrites(nodes))(nodes[k].end).zeroWidth == ""
  {
    var p := nodes[k].end;
    OrderBounds(nodes, a, b);
    if j :| 0 <= j < |nodes| && nodes[j].start <= p < nodes[j].end {
      StartsApart(nodes, a, b, j);
      assert nodes[j].start == p;
      PieceAtStart(original, edits, nodes, a, b, j);
    } else {
      PieceOutside(original, edits, nodes, a, b, p);
    }
  }

  /**
   Gluing gaps and new texts equals queuing the new texts as overwrites and
   slicing once, when every node is clear and no insert sits in an empty gap.
   */
  lemma GluingIsSlicing(original: string, edits: seq<Edit>, nodes: seq<Placed>, a: nat, b: nat)
    requires InOrder(nodes, a, b) && b <= |original|
    requires forall j :: 0 <= j < |nodes| ==> IsClear(edits, nodes[j])
    requires nodes != [] ==> NoEdgeInserts(edits, nodes, a, b)
    ensures a <= b
    ensures GluedText(original, edits, nodes, a, b) == Slice(original, edits + Overwrites(nodes), a, b)
  {
    OrderBounds(nodes, a, b);
    if nodes == [] {
      assert edits + [] == edits;
      return;
    }
    OverwritesPlace(original, edits, nodes, a, b);
    NoEdgesAsPieces(original, edits, nodes, a, b);
    GluedAsPieces(original, edits, nodes, a, b);
    GluedIsSliceOf(Contributions(original, edits), Contributions(original, edits + Overwrites(nodes)), nodes, a, b);
  }
}
