/** Text assembled position by position, whatever each position contributes. */
module Pieces {

  /** The four parts one position contributes, in output order. */
  datatype Piece = Piece(inserted: string, zeroWidth: string, replaced: string, kept: string)
  {
    function Front(): string {
      inserted + zeroWidth + replaced
    }

    function All(): string {
      Front() + kept
    }
  }

  /** Everything positions `lo`..`hi` (exclusive) contribute. */
  function Between(f: nat -> Piece, lo: nat, hi: nat): string
    requires lo <= hi
    decreases hi - lo
  {
    if lo == hi then "" else f(lo).All() + Between(f, lo + 1, hi)
  }

  /** Positions `lo`..`hi` and what stands at `hi` before its character. */
  function UpTo(f: nat -> Piece, lo: nat, hi: nat): string
    requires lo <= hi
  {
    Between(f, lo, hi) + f(hi).Front()
  }

  function WholeOf(f: nat -> Piece, n: nat): string {
    UpTo(f, 0, n)
  }

  /** What a non-empty slice holds between the inserts at its two ends. */
  function Inside(f: nat -> Piece, a: nat, b: nat): string
    requires a < b
  {
    f(a).replaced + f(a).kept + Between(f, a + 1, b)
  }

  function SliceOf(f: nat -> Piece, a: nat, b: nat): string
    requires a <= b
  {
    if a == b then f(a).inserted else f(a).inserted + Inside(f, a, b) + f(b).inserted
  }

  lemma {:induction false} BetweenSplit(f: nat -> Piece, lo: nat, mid: nat, hi: nat)
    requires lo <= mid <= hi
    ensures Between(f, lo, hi) == Between(f, lo, mid) + Between(f, mid, hi)
    decreases mid - lo
  {
    if lo < mid {
      BetweenSplit(f, lo + 1, mid, hi);
    }
  }

  lemma UpToStep(f: nat -> Piece, lo: nat, hi: nat)
    requires lo < hi
    ensures UpTo(f, lo, hi) == f(lo).All() + UpTo(f, lo + 1, hi)
  {
  }

  /** Equal texts between equal neighbours. */
  lemma Cancel(x: string, u: string, v: string, y: string)
    ensures x + u + y == x + v + y <==> u == v
  {
    if x + u + y == x + v + y {
      assert |u| == |v|;
      assert u == (x + u + y)[|x|..|x| + |u|];
      assert v == (x + v + y)[|x|..|x| + |v|];
    }
  }

  lemma Longer(i: string, s: string)
    ensures i + s == s <==> i == ""
    ensures s + i == s <==> i == ""
  {
    assert |i + s| == |i| + |s|;
  }

  lemma CutInTwo(p: string, x: string, i: string, z: string, y: string, q: string)
    ensures (p + x + i) + (i + y + q) == p + (x + i + z + y) + q <==> i == z
  {
    assert (p + x + i) + (i + y + q) == (p + x + i) + i + (y + q);
    assert p + (x + i + z + y) + q == (p + x + i) + z + (y + q);
    Cancel(p + x + i, i, z, y + q);
  }

  lemma Regroup(h: string, x: string, i: string, z: string, r: string, k: string, y: string)
    ensures h + (x + (i + z + r + k + y)) == (h + x) + i + z + (r + k + y)
  {
  }

  lemma InsideSplit(f: nat -> Piece, a: nat, m: nat, b: nat)
    requires a < m < b
    ensures Inside(f, a, b) == Inside(f, a, m) + f(m).inserted + f(m).zeroWidth + Inside(f, m, b)
  {
    var h, x, y := f(a).replaced + f(a).kept, Between(f, a + 1, m), Between(f, m + 1, b);
    BetweenSplit(f, a + 1, m, b);
    Regroup(h, x, f(m).inserted, f(m).zeroWidth, f(m).replaced, f(m).kept, y);
  }

  /** When cutting at `m` and gluing loses or doubles nothing. */
  lemma CutSlice(f: nat -> Piece, a: nat, m: nat, b: nat)
    requires a <= m <= b
    ensures SliceOf(f, a, m) + SliceOf(f, m, b) == SliceOf(f, a, b)
       <==> f(m).inserted == if a < m < b then f(m).zeroWidth else ""
  {
    if a == m || m == b {
      Longer(f(m).inserted, SliceOf(f, a, b));
    } else {
      InsideSplit(f, a, m, b);
      CutInTwo(f(a).inserted, Inside(f, a, m), f(m).inserted, f(m).zeroWidth, Inside(f, m, b), f(b).inserted);
    }
  }

  lemma SliceOfAll(f: nat -> Piece, n: nat)
    requires f(n).replaced == ""
    ensures SliceOf(f, 0, n) == WholeOf(f, n) <==> f(0).zeroWidth == "" && f(n).zeroWidth == ""
  {
    if n == 0 {
      Longer(f(0).zeroWidth, f(0).inserted);
    } else {
      var i, z, inside, j, y := f(0).inserted, f(0).zeroWidth, Inside(f, 0, n), f(n).inserted, f(n).zeroWidth;
      assert WholeOf(f, n) == i + z + inside + j + y by {
        assert Between(f, 0, n) == i + z + inside;
      }
      Ends(i, z, inside, j, y);
    }
  }

  lemma Ends(i: string, z: string, inside: string, j: string, y: string)
    ensures i + inside + j == i + z + inside + j + y <==> z == "" && y == ""
  {
    assert |i + z + inside + j + y| == |i + inside + j| + |z| + |y|;
  }

  lemma {:induction false} SamePieces(f: nat -> Piece, g: nat -> Piece, a: nat, b: nat)
    requires a <= b
    requires forall p: nat :: f(p) == g(p)
    ensures Between(f, a, b) == Between(g, a, b)
    ensures SliceOf(f, a, b) == SliceOf(g, a, b)
    decreases b - a
  {
    if a < b {
      SamePieces(f, g, a + 1, b);
    }
  }

  /** Losing exactly the zero-width texts at both ends, and what starts at the far end, turns `UpTo` into a slice. */
  lemma UpToIsSlice(f: nat -> Piece, g: nat -> Piece, a: nat, b: nat)
    requires a <= b
    requires forall p: nat | a <= p <= b ::
      && f(p).inserted == g(p).inserted
      && (p < b ==> f(p).replaced == g(p).replaced && f(p).kept == g(p).kept)
      && (a < p < b ==> f(p).zeroWidth == g(p).zeroWidth)
      && (p == a || p == b ==> f(p).zeroWidth == "")
      && (p == b ==> f(p).replaced == "")
    ensures UpTo(f, a, b) == SliceOf(g, a, b)
  {
    if a < b {
      SameBetween(f, g, a + 1, b);
      OpenEnds(f(a), f(b), g(a), g(b), Between(g, a + 1, b));
    }
  }

  lemma OpenEnds(f: Piece, f': Piece, g: Piece, g': Piece, x: string)
    requires f.zeroWidth == "" && f'.zeroWidth == "" && f'.replaced == ""
    requires f.inserted == g.inserted && f'.inserted == g'.inserted && f.replaced == g.replaced && f.kept == g.kept
    ensures f.All() + x + (f'.inserted + f'.zeroWidth + f'.replaced)
         == g.inserted + (g.replaced + g.kept + x) + g'.inserted
  {
  }

  lemma {:induction false} SameBetween(f: nat -> Piece, g: nat -> Piece, a: nat, b: nat)
    requires a <= b && forall p: nat | a <= p < b :: f(p) == g(p)
    ensures Between(f, a, b) == Between(g, a, b)
    decreases b - a
  {
    if a < b {
      SameBetween(f, g, a + 1, b);
    }
  }

  /** Positions that only keep their own character spell out the text itself. */
  lemma {:induction false} Untouched(text: string, f: nat -> Piece, lo: nat)
    requires lo <= |text|
    requires forall p: nat | p <= |text| :: f(p) == Piece("", "", "", if p < |text| then [text[p]] else "")
    ensures UpTo(f, lo, |text|) == text[lo..]
    decreases |text| - lo
  {
    if lo < |text| {
      Untouched(text, f, lo + 1);
      OneUntouched(text, f, lo);
      UpToStep(f, lo, |text|);
    }
  }

  lemma OneUntouched(text: string, f: nat -> Piece, p: nat)
    requires p < |text| && f(p) == Piece("", "", "", [text[p]])
    ensures f(p).All() == [text[p]] && text[p..] == [text[p]] + text[p + 1..]
  {
  }
}
