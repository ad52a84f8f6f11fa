/**
 The queued-edit text buffer that every compiler pass writes to
 (native/vertz-compiler-core/src/magic_string.rs).

 `EditMeaning` says declaratively what a queue of edits means, position by
 position. `EditQueue` is the buffer itself: its two renderers sort the queue
 and sweep a cursor over it, and are proved to compute that meaning.
 */
module EditMeaning {
  import opened Pieces

  datatype Edit =
    | Overwrite(start: nat, end: nat, text: string)
    | InsertBefore(pos: nat, text: string)
    | InsertAfter(pos: nat, text: string)
  {
    function At(): nat {
      if Overwrite? then start else pos
    }

    /** The sort priority among edits at one position. */
    function Rank(): nat {
      match this
      case InsertBefore(_, _) => 0
      case InsertAfter(_, _) => 1
      case Overwrite(_, _, _) => 2
    }

    predicate InBounds(n: nat) {
      At() <= n && (Overwrite? ==> start <= end)
    }
  }

  ghost predicate AllInBounds(edits: seq<Edit>, n: nat) {
    forall e :: e in edits ==> e.InBounds(n)
  }

  /** The edits of one kind queued at position `p`, in queue order. */
  function Pick(edits: seq<Edit>, p: nat, rank: nat): seq<Edit> {
    if edits == [] then []
    else if edits[0].At() == p && edits[0].Rank() == rank then [edits[0]] + Pick(edits[1..], p, rank)
    else Pick(edits[1..], p, rank)
  }

  lemma {:induction false} PickMember(edits: seq<Edit>, p: nat, rank: nat, e: Edit)
    ensures e in Pick(edits, p, rank) <==> e in edits && e.At() == p && e.Rank() == rank
  {
    if edits != [] {
      PickMember(edits[1..], p, rank, e);
    }
  }

  function Texts(edits: seq<Edit>): string {
    if edits == [] then "" else edits[0].text + Texts(edits[1..])
  }

  /** Texts of the zero-width overwrites that come before the first non-empty one. */
  function ZeroWidthText(os: seq<Edit>): string
  {
    if os == [] || (os[0].Overwrite? && os[0].start < os[0].end) then ""
    else os[0].text + ZeroWidthText(os[1..])
  }

  /** Text of the first non-empty overwrite. */
  function FirstWideText(os: seq<Edit>): string
  {
    if os == [] then ""
    else if os[0].Overwrite? && os[0].start < os[0].end then os[0].text
    else FirstWideText(os[1..])
  }

  /** Some overwrite strictly contains position `p`. */
  ghost predicate Swallowed(edits: seq<Edit>, p: nat) {
    exists o :: o in edits && o.Overwrite? && o.start < p < o.end
  }

  /** Some overwrite replaces the original character at `p`. */
  ghost predicate Covered(edits: seq<Edit>, p: nat) {
    exists o :: o in edits && o.Overwrite? && o.start <= p < o.end
  }

  /** What the inserts queued at `p` contribute. */
  ghost function Inserted(edits: seq<Edit>, p: nat): string {
    if Swallowed(edits, p) then ""
    else Texts(Pick(edits, p, 0)) + Texts(Pick(edits, p, 1))
  }

  /** What the zero-width overwrites at `p` contribute. */
  ghost function ZeroWidth(edits: seq<Edit>, p: nat): string {
    if Swallowed(edits, p) then "" else ZeroWidthText(Pick(edits, p, 2))
  }

  /** What the non-empty overwrites starting at `p` contribute: at most one survives. */
  ghost function Replaced(edits: seq<Edit>, p: nat): string {
    if Swallowed(edits, p) then "" else FirstWideText(Pick(edits, p, 2))
  }

  /** The original character at `p`, unless an overwrite covers it. */
  ghost function Kept(original: string, edits: seq<Edit>, p: nat): string
    requires p < |original|
  {
    if Covered(edits, p) then "" else [original[p]]
  }

  /** Everything each position contributes. */
  ghost function Contributions(original: string, edits: seq<Edit>): nat -> Piece {
    (p: nat) => Piece(Inserted(edits, p), ZeroWidth(edits, p), Replaced(edits, p),
                      if p < |original| then Kept(original, edits, p) else "")
  }

  /** The whole edited text. */
  ghost function Whole(original: string, edits: seq<Edit>): string {
    WholeOf(Contributions(original, edits), |original|)
  }

  /**
   The edited text between two positions of the original: inserts at both ends
   belong to it, zero-width overwrites at its ends do not.
   */
  ghost function Slice(original: string, edits: seq<Edit>, a: nat, b: nat): string
    requires a <= b <= |original|
  {
    SliceOf(Contributions(original, edits), a, b)
  }

  /**
   Cutting a slice in two and gluing the halves gives the slice back exactly when
   doubling the inserts at the cut makes up for the zero-width overwrites lost there.
   */
  lemma SlicesCompose(original: string, edits: seq<Edit>, a: nat, m: nat, b: nat)
    requires a <= m <= b <= |original|
    ensures Slice(original, edits, a, m) + Slice(original, edits, m, b) == Slice(original, edits, a, b)
       <==> Inserted(edits, m) == if a < m < b then ZeroWidth(edits, m) else ""
  {
    CutSlice(Contributions(original, edits), a, m, b);
  }

  /** The slice of everything is the whole text exactly when no zero-width overwrite at an end survives with text. */
  lemma WholeIsSlice(original: string, edits: seq<Edit>)
    requires forall e :: e in edits && e.Overwrite? ==> e.end <= |original|
    ensures Slice(original, edits, 0, |original|) == Whole(original, edits)
       <==> ZeroWidth(edits, 0) == "" && ZeroWidth(edits, |original|) == ""
  {
    var n := |original|;
    forall o | o in Pick(edits, n, 2) ensures o.Overwrite? && o.end <= o.start {
      PickMember(edits, n, 2, o);
    }
    NoWide(Pick(edits, n, 2));
    SliceOfAll(Contributions(original, edits), n);
  }

  lemma {:induction false} NoWide(os: seq<Edit>)
    requires forall o :: o in os ==> o.Overwrite? && o.end <= o.start
    ensures FirstWideText(os) == ""
  {
    if os != [] {
      NoWide(os[1..]);
    }
  }

  /** Two queues agree on the edits of each kind at each position, in order. */
  ghost predicate SameGroups(e1: seq<Edit>, e2: seq<Edit>) {
    forall p: nat, rank: nat :: Pick(e1, p, rank) == Pick(e2, p, rank)
  }

  lemma SameGroupsSameOverwrites(e1: seq<Edit>, e2: seq<Edit>, o: Edit)
    requires SameGroups(e1, e2) && o in e1
    ensures o in e2
  {
    PickMember(e1, o.At(), o.Rank(), o);
    PickMember(e2, o.At(), o.Rank(), o);
    assert Pick(e1, o.At(), o.Rank()) == Pick(e2, o.At(), o.Rank());
  }

  lemma SameAt(e1: seq<Edit>, e2: seq<Edit>, p: nat)
    requires SameGroups(e1, e2)
    ensures Swallowed(e1, p) == Swallowed(e2, p) && Covered(e1, p) == Covered(e2, p)
    ensures Inserted(e1, p) == Inserted(e2, p)
    ensures ZeroWidth(e1, p) == ZeroWidth(e2, p)
    ensures Replaced(e1, p) == Replaced(e2, p)
  {
    forall o ensures o in e1 <==> o in e2 {
      if o in e1 { SameGroupsSameOverwrites(e1, e2, o); }
      if o in e2 { SameGroupsSameOverwrites(e2, e1, o); }
    }
    assert Pick(e1, p, 0) == Pick(e2, p, 0);
    assert Pick(e1, p, 1) == Pick(e2, p, 1);
    assert Pick(e1, p, 2) == Pick(e2, p, 2);
  }

  /** Both renderings depend only on the relative order of edits sharing a position and a kind. */
  lemma QueueOrderIsLocal(original: string, e1: seq<Edit>, e2: seq<Edit>, a: nat, b: nat)
    requires SameGroups(e1, e2) && a <= b <= |original|
    ensures Whole(original, e1) == Whole(original, e2)
    ensures Slice(original, e1, a, b) == Slice(original, e2, a, b)
  {
    var f, g := Contributions(original, e1), Contributions(original, e2);
    forall p: nat ensures f(p) == g(p) {
      SameAt(e1, e2, p);
    }
    SamePieces(f, g, 0, |original|);
    assert f(|original|) == g(|original|);
    SamePieces(f, g, a, b);
  }
}
