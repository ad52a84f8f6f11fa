/**
 What a queue contributes at one position, said of the edits themselves: first
 the texts inserted before the position, then those inserted after it, then the
 overwrite, each kind in queue order.
 */
module EditOrder {
  import opened Pieces
  import opened EditMeaning

  /** The texts of all `InsertBefore` edits at `p`, in queue order. */
  function BeforeAt(edits: seq<Edit>, p: nat): string {
    if edits == [] then ""
    else match edits[0]
      case InsertBefore(pos, text) => (if pos == p then text else "") + BeforeAt(edits[1..], p)
      case InsertAfter(_, _) => BeforeAt(edits[1..], p)
      case Overwrite(_, _, _) => BeforeAt(edits[1..], p)
  }

  /** The texts of all `InsertAfter` edits at `p`, in queue order. */
  function AfterAt(edits: seq<Edit>, p: nat): string {
    if edits == [] then ""
    else match edits[0]
      case InsertAfter(pos, text) => (if pos == p then text else "") + AfterAt(edits[1..], p)
      case InsertBefore(_, _) => AfterAt(edits[1..], p)
      case Overwrite(_, _, _) => AfterAt(edits[1..], p)
  }

  /** The texts of the zero-width overwrites at `p` ahead of the first one there that replaces something. */
  function ZeroWidthAt(edits: seq<Edit>, p: nat): string {
    if edits == [] then ""
    else match edits[0]
      case Overwrite(start, end, text) =>
        if start != p then ZeroWidthAt(edits[1..], p) else if end > p then "" else text + ZeroWidthAt(edits[1..], p)
      case InsertBefore(_, _) => ZeroWidthAt(edits[1..], p)
      case InsertAfter(_, _) => ZeroWidthAt(edits[1..], p)
  }

  /** The text of the first overwrite at `p` that replaces something. */
  function ReplacementAt(edits: seq<Edit>, p: nat): string {
    if edits == [] then ""
    else match edits[0]
      case Overwrite(start, end, text) => if start == p && end > p then text else ReplacementAt(edits[1..], p)
      case InsertBefore(_, _) => ReplacementAt(edits[1..], p)
      case InsertAfter(_, _) => ReplacementAt(edits[1..], p)
  }

  lemma {:induction false} PickedTexts(edits: seq<Edit>, p: nat)
    ensures Texts(Pick(edits, p, 0)) == BeforeAt(edits, p)
    ensures Texts(Pick(edits, p, 1)) == AfterAt(edits, p)
  {
    if edits != [] {
      PickedTexts(edits[1..], p);
    }
  }

  lemma {:induction false} PickedOverwrites(edits: seq<Edit>, p: nat)
    ensures ZeroWidthText(Pick(edits, p, 2)) == ZeroWidthAt(edits, p)
    ensures FirstWideText(Pick(edits, p, 2)) == ReplacementAt(edits, p)
  {
    if edits != [] {
      PickedOverwrites(edits[1..], p);
    }
  }

  /** Inserts before, inserts after, overwrites, and the character unless one of them replaces it. */
  lemma ReceivedInOrder(original: string, edits: seq<Edit>, p: nat)
    requires forall o :: o in edits && o.Overwrite? ==> !(o.start < p < o.end)
    ensures Contributions(original, edits)(p)
         == Piece(BeforeAt(edits, p) + AfterAt(edits, p), ZeroWidthAt(edits, p), ReplacementAt(edits, p),
                  if p >= |original| || exists o :: o in edits && o.Overwrite? && o.start == p && p < o.end then ""
                  else [original[p]])
  {
    PickedTexts(edits, p);
    PickedOverwrites(edits, p);
    assert Covered(edits, p) <==> exists o :: o in edits && o.Overwrite? && o.start == p && p < o.end;
  }

  /** Strictly inside an overwrite nothing is received. */
  lemma SwallowedInside(original: string, edits: seq<Edit>, p: nat, o: Edit)
    requires o in edits && o.Overwrite? && o.start < p < o.end
    ensures Contributions(original, edits)(p) == Piece("", "", "", "")
  {
    assert Swallowed(edits, p) && Covered(edits, p);
  }

  // ---- queues about one position ----

  lemma {:induction false} PlainBetween(original: string, f: nat -> Piece, lo: nat, hi: nat)
    requires lo <= hi <= |original| && forall k: nat | lo <= k < hi :: f(k).All() == [original[k]]
    ensures Between(f, lo, hi) == original[lo..hi]
    decreases hi - lo
  {
    if lo < hi {
      PlainBetween(original, f, lo + 1, hi);
      assert original[lo..hi] == [original[lo]] + original[lo + 1..hi];
    }
  }

  lemma {:induction false} SilentBetween(f: nat -> Piece, lo: nat, hi: nat)
    requires lo <= hi && forall k: nat | lo <= k < hi :: f(k).All() == ""
    ensures Between(f, lo, hi) == ""
    decreases hi - lo
  {
    if lo < hi {
      SilentBetween(f, lo + 1, hi);
    }
  }

  /** Everything but one range is kept, and `text` is received where the range starts. */
  ghost predicate ReplacesRange(original: string, f: nat -> Piece, p: nat, q: nat, text: string) {
    && p <= q <= |original|
    && (forall k: nat | k < |original| && (k < p || (p < k && q <= k)) :: f(k).All() == [original[k]])
    && (forall k: nat | p < k < q :: f(k).All() == "")
    && (p < |original| ==> f(|original|).Front() == "")
    && f(p).All() == text + (if p == q && p < |original| then [original[p]] else "")
    && (p == |original| ==> f(p).Front() == text)
  }

  lemma RangeReplaced(original: string, f: nat -> Piece, p: nat, q: nat, text: string)
    requires ReplacesRange(original, f, p, q, text)
    ensures WholeOf(f, |original|) == original[..p] + text + original[q..]
  {
    var n := |original|;
    PlainBetween(original, f, 0, p);
    if p < n {
      BetweenSplit(f, 0, p, n);
      RestReads(original, f, p, q, text);
      assert original[..p] + (text + original[q..]) == original[..p] + text + original[q..];
    }
  }

  lemma RestReads(original: string, f: nat -> Piece, p: nat, q: nat, text: string)
    requires ReplacesRange(original, f, p, q, text) && p < |original|
    ensures Between(f, p, |original|) == text + original[q..]
  {
    if p < q {
      AfterRange(original, f, p, q, text);
    } else {
      PlainBetween(original, f, p + 1, |original|);
      FirstBack(text, original, p);
    }
  }

  lemma FirstBack(text: string, original: string, p: nat)
    requires p < |original|
    ensures (text + [original[p]]) + original[p + 1..|original|] == text + original[p..]
  {
  }

  lemma AfterRange(original: string, f: nat -> Piece, p: nat, q: nat, text: string)
    requires ReplacesRange(original, f, p, q, text) && p < q
    ensures Between(f, p, |original|) == text + original[q..]
  {
    QuietThenPlain(original, f, p + 1, q);
    FirstReplaced(f, p, |original|, text, original[q..]);
  }

  lemma QuietThenPlain(original: string, f: nat -> Piece, lo: nat, q: nat)
    requires lo <= q <= |original| && (forall k: nat | lo <= k < q :: f(k).All() == "")
    requires forall k: nat | q <= k < |original| :: f(k).All() == [original[k]]
    ensures Between(f, lo, |original|) == original[q..]
  {
    BetweenSplit(f, lo, q, |original|);
    SilentBetween(f, lo, q);
    PlainBetween(original, f, q, |original|);
  }

  lemma FirstReplaced(f: nat -> Piece, p: nat, n: nat, text: string, rest: string)
    requires p < n && f(p).All() == text && Between(f, p + 1, n) == rest
    ensures Between(f, p, n) == text + rest
  {
  }

  /** Inserts at `p` and overwrites of `p..q`. */
  ghost predicate IsAbout(edits: seq<Edit>, p: nat, q: nat) {
    && (forall e :: e in edits ==> if e.Overwrite? then e.start == p < q == e.end else e.pos == p)
    && (p < q ==> exists o :: o in edits && o.Overwrite?)
  }

  lemma {:induction false} NothingAt(edits: seq<Edit>, k: nat)
    requires forall e :: e in edits ==> e.At() != k
    ensures BeforeAt(edits, k) == AfterAt(edits, k) == ZeroWidthAt(edits, k) == ReplacementAt(edits, k) == ""
  {
    if edits != [] {
      assert edits[0] in edits;
      NothingAt(edits[1..], k);
    }
  }

  lemma {:induction false} NoZeroWidth(edits: seq<Edit>, p: nat, q: nat)
    requires forall e :: e in edits ==> if e.Overwrite? then e.start == p < q == e.end else e.pos == p
    ensures ZeroWidthAt(edits, p) == "" && (p == q ==> ReplacementAt(edits, p) == "")
  {
    if edits != [] {
      assert edits[0] in edits;
      NoZeroWidth(edits[1..], p, q);
    }
  }

  lemma KeptOutside(original: string, edits: seq<Edit>, p: nat, q: nat, k: nat)
    requires IsAbout(edits, p, q) && k < |original| && (k < p || (p < k && q <= k))
    ensures Contributions(original, edits)(k).All() == [original[k]]
  {
    NothingAt(edits, k);
    ReceivedInOrder(original, edits, k);
  }

  lemma SilentInside(original: string, edits: seq<Edit>, p: nat, q: nat, k: nat)
    requires IsAbout(edits, p, q) && p < k < q
    ensures Contributions(original, edits)(k).All() == ""
  {
    var o :| o in edits && o.Overwrite?;
    SwallowedInside(original, edits, k, o);
  }

  /** What is received where the range starts. */
  function ReceivedAt(edits: seq<Edit>, p: nat): string {
    BeforeAt(edits, p) + AfterAt(edits, p) + ReplacementAt(edits, p)
  }

  lemma ReceivedAtStart(original: string, edits: seq<Edit>, p: nat, q: nat)
    requires p <= q <= |original| && IsAbout(edits, p, q)
    ensures var piece := Contributions(original, edits)(p);
      && piece.Front() == ReceivedAt(edits, p)
      && piece.All() == ReceivedAt(edits, p) + if p == q && p < |original| then [original[p]] else ""
  {
    NoZeroWidth(edits, p, q);
    ReceivedInOrder(original, edits, p);
    ReplacedAtStart(edits, p, q);
  }

  lemma ReplacedAtStart(edits: seq<Edit>, p: nat, q: nat)
    requires p <= q && IsAbout(edits, p, q)
    ensures p < q <==> exists o :: o in edits && o.Overwrite? && o.start == p && p < o.end
    ensures forall o :: o in edits && o.Overwrite? ==> !(o.start < p < o.end)
  {
    if p < q {
      var o :| o in edits && o.Overwrite?;
      assert o.start == p && p < o.end;
    }
  }

  /**
   Inserts at one position and overwrites of one range starting there, queued in
   any order: the text reads on up to the position, then come the inserts before
   it, the inserts after it, the first overwrite's text, and the rest.
   */
  lemma EditsAtOnePosition(original: string, edits: seq<Edit>, p: nat, q: nat)
    requires p <= q <= |original| && IsAbout(edits, p, q)
    ensures Whole(original, edits)
         == original[..p] + (BeforeAt(edits, p) + AfterAt(edits, p) + ReplacementAt(edits, p)) + original[q..]
  {
    var f := Contributions(original, edits);
    forall k: nat | k < |original| && (k < p || (p < k && q <= k)) ensures f(k).All() == [original[k]] {
      KeptOutside(original, edits, p, q, k);
    }
    forall k: nat | p < k < q ensures f(k).All() == "" {
      SilentInside(original, edits, p, q, k);
    }
    ReceivedAtStart(original, edits, p, q);
    if p < |original| {
      NothingAt(edits, |original|);
      ReceivedInOrder(original, edits, |original|);
    }
    RangeReplaced(original, f, p, q, ReceivedAt(edits, p));
  }

  /** Whichever was queued first, the text inserted before a position stands before the text inserted after it. */
  lemma BeforeStandsFirst(original: string, p: nat, x: string, y: string)
    requires p <= |original|
    ensures Whole(original, [InsertBefore(p, x), InsertAfter(p, y)]) == original[..p] + x + y + original[p..]
    ensures Whole(original, [InsertAfter(p, y), InsertBefore(p, x)]) == original[..p] + x + y + original[p..]
  {
    InsertedPair(original, p, [InsertBefore(p, x), InsertAfter(p, y)], x, y);
    InsertedPair(original, p, [InsertAfter(p, y), InsertBefore(p, x)], x, y);
  }

  lemma InsertedPair(original: string, p: nat, edits: seq<Edit>, x: string, y: string)
    requires p <= |original|
    requires edits == [InsertBefore(p, x), InsertAfter(p, y)] || edits == [InsertAfter(p, y), InsertBefore(p, x)]
    ensures Whole(original, edits) == original[..p] + x + y + original[p..]
  {
    PairTexts(p, edits, x, y);
    NoZeroWidth(edits, p, p);
    EditsAtOnePosition(original, edits, p, p);
    Joined(original[..p], x, y, original[p..]);
  }

  lemma Joined(a: string, x: string, y: string, b: string)
    ensures a + (x + y + "") + b == a + x + y + b
  {
  }

  lemma PairTexts(p: nat, edits: seq<Edit>, x: string, y: string)
    requires edits == [InsertBefore(p, x), InsertAfter(p, y)] || edits == [InsertAfter(p, y), InsertBefore(p, x)]
    ensures BeforeAt(edits, p) == x && AfterAt(edits, p) == y
  {
    OneText(edits[1], p);
    assert edits[1..] == [edits[1]];
  }

  lemma OneText(e: Edit, p: nat)
    ensures BeforeAt([e], p) == if e.InsertBefore? && e.pos == p then e.text else ""
    ensures AfterAt([e], p) == if e.InsertAfter? && e.pos == p then e.text else ""
  {
    assert [e][1..] == [];
  }
}
