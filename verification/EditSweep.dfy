/**
 The sweep both renderers of the edit buffer make: sort the queued edits, then
 move a cursor over the original text. `SweepIsMeaning` shows that it computes
 the position-by-position meaning of the queue.
 (native/vertz-compiler-core/src/magic_string.rs)
 */
module EditSweep {
  import opened Pieces
  import opened EditMeaning

  /** An edit with its place in the queue. */
  datatype Event = Event(edit: Edit, idx: nat)

  predicate Precedes(a: Event, b: Event) {
    a.edit.At() < b.edit.At()
    || (a.edit.At() == b.edit.At()
        && (a.edit.Rank() < b.edit.Rank() || (a.edit.Rank() == b.edit.Rank() && a.idx < b.idx)))
  }

  function Insert(e: Event, s: seq<Event>): seq<Event> {
    if s != [] && Precedes(s[0], e) then [s[0]] + Insert(e, s[1..]) else [e] + s
  }

  /** The library sort, by position, then kind, then queue order. */
  function SortEvents(s: seq<Event>): seq<Event> {
    if s == [] then [] else Insert(s[0], SortEvents(s[1..]))
  }

  function Edits(events: seq<Event>): seq<Edit> {
    if events == [] then [] else [events[0].edit] + Edits(events[1..])
  }

  lemma {:induction false} EditsAppend(a: seq<Event>, b: seq<Event>)
    ensures Edits(a + b) == Edits(a) + Edits(b)
  {
    if a == [] {
      assert a + b == b;
    } else {
      assert (a + b)[1..] == a[1..] + b;
      EditsAppend(a[1..], b);
    }
  }

  lemma {:induction false} EditsAt(events: seq<Event>)
    ensures |Edits(events)| == |events|
    ensures forall i :: 0 <= i < |events| ==> Edits(events)[i] == events[i].edit
  {
    if events != [] {
      EditsAt(events[1..]);
    }
  }

  // ---- sorting puts the edits into groups, one per position and kind ----

  function Group(events: seq<Event>, p: nat, rank: nat): seq<Event> {
    if events == [] then []
    else if events[0].edit.At() == p && events[0].edit.Rank() == rank
      then [events[0]] + Group(events[1..], p, rank)
    else Group(events[1..], p, rank)
  }

  function Groups(events: seq<Event>, lo: nat, hi: nat): seq<Event>
    requires lo <= hi
    decreases hi - lo
  {
    if lo == hi then []
    else Group(events, lo, 0) + (Group(events, lo, 1) + (Group(events, lo, 2) + Groups(events, lo + 1, hi)))
  }

  lemma {:induction false} GroupMembers(events: seq<Event>, p: nat, rank: nat, x: Event)
    requires x in Group(events, p, rank)
    ensures x in events && x.edit.At() == p && x.edit.Rank() == rank
  {
    if x != events[0] || x !in [events[0]] {
      GroupMembers(events[1..], p, rank, x);
    } else if !(events[0].edit.At() == p && events[0].edit.Rank() == rank) {
      GroupMembers(events[1..], p, rank, x);
    }
  }

  lemma {:induction false} GroupsMembers(events: seq<Event>, lo: nat, hi: nat, x: Event)
    requires lo <= hi && x in Groups(events, lo, hi)
    ensures x in events && lo <= x.edit.At()
    decreases hi - lo
  {
    if x in Group(events, lo, 0) { GroupMembers(events, lo, 0, x); }
    else if x in Group(events, lo, 1) { GroupMembers(events, lo, 1, x); }
    else if x in Group(events, lo, 2) { GroupMembers(events, lo, 2, x); }
    else { GroupsMembers(events, lo + 1, hi, x); }
  }

  lemma {:induction false} InsertPast(e: Event, a: seq<Event>, b: seq<Event>)
    requires forall x :: x in a ==> Precedes(x, e)
    ensures Insert(e, a + b) == a + Insert(e, b)
  {
    if a == [] {
      assert a + b == b;
    } else {
      assert (a + b)[1..] == a[1..] + b;
      InsertPast(e, a[1..], b);
    }
  }

  lemma {:induction false} GroupsSkip(e: Event, rest: seq<Event>, lo: nat, hi: nat)
    requires lo <= hi && e.edit.At() < lo
    ensures Groups([e] + rest, lo, hi) == Groups(rest, lo, hi)
    decreases hi - lo
  {
    assert ([e] + rest)[1..] == rest;
    if lo < hi {
      GroupsSkip(e, rest, lo + 1, hi);
    }
  }

  /** Four runs of events, each placed as the groups of one position are. */
  ghost predicate Ranked(g0: seq<Event>, g1: seq<Event>, g2: seq<Event>, tail: seq<Event>, p: nat, idx: nat) {
    && (forall x :: x in g0 ==> x.edit.At() == p && x.edit.Rank() == 0 && idx < x.idx)
    && (forall x :: x in g1 ==> x.edit.At() == p && x.edit.Rank() == 1 && idx < x.idx)
    && (forall x :: x in g2 ==> x.edit.At() == p && x.edit.Rank() == 2 && idx < x.idx)
    && (forall x :: x in tail ==> p < x.edit.At())
  }

  lemma GroupsAreRanked(rest: seq<Event>, lo: nat, hi: nat, idx: nat)
    requires lo < hi && forall x :: x in rest ==> idx < x.idx
    ensures Ranked(Group(rest, lo, 0), Group(rest, lo, 1), Group(rest, lo, 2), Groups(rest, lo + 1, hi), lo, idx)
  {
    forall x | x in Group(rest, lo, 0) ensures x in rest && x.edit.At() == lo && x.edit.Rank() == 0 {
      GroupMembers(rest, lo, 0, x);
    }
    forall x | x in Group(rest, lo, 1) ensures x in rest && x.edit.At() == lo && x.edit.Rank() == 1 {
      GroupMembers(rest, lo, 1, x);
    }
    forall x | x in Group(rest, lo, 2) ensures x in rest && x.edit.At() == lo && x.edit.Rank() == 2 {
      GroupMembers(rest, lo, 2, x);
    }
    forall x | x in Groups(rest, lo + 1, hi) ensures lo < x.edit.At() {
      GroupsMembers(rest, lo + 1, hi, x);
    }
  }

  /** Inserting the event queued first at `p` puts it at the head of its own group. */
  lemma InsertRanked(e: Event, g0: seq<Event>, g1: seq<Event>, g2: seq<Event>, tail: seq<Event>, p: nat)
    requires Ranked(g0, g1, g2, tail, p, e.idx) && e.edit.At() == p
    ensures Insert(e, g0 + (g1 + (g2 + tail)))
         == if e.edit.Rank() == 0 then ([e] + g0) + (g1 + (g2 + tail))
            else if e.edit.Rank() == 1 then g0 + (([e] + g1) + (g2 + tail))
            else g0 + (g1 + (([e] + g2) + tail))
  {
    if e.edit.Rank() == 0 {
      InsertHere(e, g0 + (g1 + (g2 + tail)));
      assert [e] + (g0 + (g1 + (g2 + tail))) == ([e] + g0) + (g1 + (g2 + tail));
    } else {
      InsertPast(e, g0, g1 + (g2 + tail));
      if e.edit.Rank() == 1 {
        InsertHere(e, g1 + (g2 + tail));
        assert [e] + (g1 + (g2 + tail)) == ([e] + g1) + (g2 + tail);
      } else {
        InsertPast(e, g1, g2 + tail);
        InsertHere(e, g2 + tail);
        assert [e] + (g2 + tail) == ([e] + g2) + tail;
      }
    }
  }

  lemma InsertPastPosition(e: Event, g0: seq<Event>, g1: seq<Event>, g2: seq<Event>, tail: seq<Event>, p: nat)
    requires Ranked(g0, g1, g2, tail, p, e.idx) && p < e.edit.At()
    ensures Insert(e, g0 + (g1 + (g2 + tail))) == g0 + (g1 + (g2 + Insert(e, tail)))
  {
    InsertPast(e, g0, g1 + (g2 + tail));
    InsertPast(e, g1, g2 + tail);
    InsertPast(e, g2, tail);
  }

  lemma {:induction false} InsertIntoGroups(e: Event, rest: seq<Event>, lo: nat, hi: nat)
    requires lo <= e.edit.At() < hi
    requires forall x :: x in rest ==> e.idx < x.idx
    ensures Insert(e, Groups(rest, lo, hi)) == Groups([e] + rest, lo, hi)
    decreases hi - lo
  {
    var g0, g1, g2 := Group(rest, lo, 0), Group(rest, lo, 1), Group(rest, lo, 2);
    var tail := Groups(rest, lo + 1, hi);
    assert ([e] + rest)[1..] == rest;
    GroupsAreRanked(rest, lo, hi, e.idx);
    if lo < e.edit.At() {
      InsertPastPosition(e, g0, g1, g2, tail, lo);
      InsertIntoGroups(e, rest, lo + 1, hi);
    } else {
      GroupsSkip(e, rest, lo + 1, hi);
      InsertRanked(e, g0, g1, g2, tail, lo);
    }
  }

  lemma InsertHere(e: Event, s: seq<Event>)
    requires forall x :: x in s ==> !Precedes(x, e)
    ensures Insert(e, s) == [e] + s
  {
  }

  ghost predicate InQueueOrder(events: seq<Event>) {
    forall i, j :: 0 <= i < j < |events| ==> events[i].idx < events[j].idx
  }

  lemma {:induction false} SortedIntoGroups(events: seq<Event>, hi: nat)
    requires InQueueOrder(events)
    requires forall x :: x in events ==> x.edit.At() < hi
    ensures SortEvents(events) == Groups(events, 0, hi)
  {
    if events == [] {
      NoGroups(0, hi);
    } else {
      SortedIntoGroups(events[1..], hi);
      InsertIntoGroups(events[0], events[1..], 0, hi);
      assert [events[0]] + events[1..] == events;
    }
  }

  lemma {:induction false} NoGroups(lo: nat, hi: nat)
    requires lo <= hi
    ensures Groups([], lo, hi) == []
    decreases hi - lo
  {
    if lo < hi {
      NoGroups(lo + 1, hi);
    }
  }

  lemma {:induction false} GroupIsPick(events: seq<Event>, p: nat, rank: nat)
    ensures Edits(Group(events, p, rank)) == Pick(Edits(events), p, rank)
  {
    if events != [] {
      GroupIsPick(events[1..], p, rank);
      assert Edits(events)[1..] == Edits(events[1..]);
      EditsAppend([events[0]], Group(events[1..], p, rank));
      assert Edits([events[0]]) == [events[0].edit] + Edits([]);
    }
  }

  // ---- the cursor sweep ----

  datatype Cursor = Cursor(pos: nat, out: string)

  function Max(a: nat, b: nat): nat {
    if a < b then b else a
  }

  /** What the sweep does at one event. */
  function Step(original: string, c: Cursor, e: Edit): Cursor
    requires e.At() <= |original|
  {
    if e.At() < c.pos then
      if e.Overwrite? then c.(pos := Max(c.pos, e.end)) else c
    else match e
      case InsertBefore(p, text) => Cursor(p, c.out + original[c.pos..p] + text)
      case InsertAfter(p, text) => Cursor(p, c.out + original[c.pos..p] + text)
      case Overwrite(p, end, text) => Cursor(Max(c.pos, end), c.out + original[c.pos..p] + text)
  }

  function Sweep(original: string, c: Cursor, es: seq<Edit>): Cursor
    requires forall e :: e in es ==> e.At() <= |original|
    decreases |es|
  {
    if es == [] then c else Sweep(original, Step(original, c, es[0]), es[1..])
  }

  lemma {:induction false} SweepAppend(original: string, c: Cursor, a: seq<Edit>, b: seq<Edit>)
    requires forall e :: e in a + b ==> e.At() <= |original|
    requires (forall e :: e in a ==> e.At() <= |original|) && (forall e :: e in b ==> e.At() <= |original|)
    ensures Sweep(original, c, a + b) == Sweep(original, Sweep(original, c, a), b)
    decreases |a|
  {
    if a == [] {
      assert a + b == b;
    } else {
      assert (a + b)[1..] == a[1..] + b;
      SweepAppend(original, Step(original, c, a[0]), a[1..], b);
    }
  }

  /** The output once the untouched text up to `p` is copied. */
  function Settled(original: string, c: Cursor, p: nat): string
    requires p <= |original|
  {
    if c.pos < p then c.out + original[c.pos..p] else c.out
  }

  /** The farthest end among the overwrites. */
  function Farthest(os: seq<Edit>): nat {
    if os == [] then 0
    else if os[0].Overwrite? then Max(os[0].end, Farthest(os[1..]))
    else Farthest(os[1..])
  }

  /** How far the overwrites starting before `p` reach. */
  function Reach(es: seq<Edit>, p: nat): nat {
    if es == [] then 0
    else if es[0].Overwrite? && es[0].start < p then Max(es[0].end, Reach(es[1..], p))
    else Reach(es[1..], p)
  }

  lemma {:induction false} ReachNext(es: seq<Edit>, p: nat)
    ensures Reach(es, p + 1) == Max(Reach(es, p), Farthest(Pick(es, p, 2)))
  {
    if es != [] {
      ReachNext(es[1..], p);
    }
  }

  lemma {:induction false} ReachIs(es: seq<Edit>, p: nat, q: nat)
    ensures q < Reach(es, p) <==> exists o :: o in es && o.Overwrite? && o.start < p && q < o.end
  {
    if es != [] {
      ReachIs(es[1..], p, q);
      if es[0].Overwrite? && es[0].start < p && q < es[0].end {
        assert es[0] in es;
      }
    }
  }

  /** The cursor before the edits at `p` has passed what earlier overwrites cover, and `a`. */
  predicate Tracks(es: seq<Edit>, a: nat, c: Cursor, p: nat) {
    Max(c.pos, p) == Max(Max(a, Reach(es, p)), p)
  }

  lemma StepInsert(original: string, c: Cursor, e: Edit)
    requires e.At() <= |original| && !e.Overwrite?
    ensures e.At() < c.pos ==> Step(original, c, e) == c
    ensures c.pos <= e.At() ==>
      Step(original, c, e) == Cursor(e.At(), Settled(original, c, e.At()) + e.text)
  {
    if c.pos == e.At() {
      assert original[c.pos..e.At()] == "";
    }
  }

  lemma {:induction false} SweepInserts(original: string, c: Cursor, es: seq<Edit>, p: nat)
    requires p <= |original|
    requires forall e :: e in es ==> e.At() == p && !e.Overwrite?
    ensures p < c.pos ==> Sweep(original, c, es) == c
    ensures c.pos <= p ==> Sweep(original, c, es).pos <= p
    ensures c.pos <= p ==> Settled(original, Sweep(original, c, es), p) == Settled(original, c, p) + Texts(es)
    decreases |es|
  {
    if es != [] {
      StepInsert(original, c, es[0]);
      SweepInserts(original, Step(original, c, es[0]), es[1..], p);
      if c.pos <= p {
        Appended(Settled(original, c, p), es[0].text, Texts(es[1..]));
      }
    }
  }

  lemma Appended(x: string, y: string, z: string)
    ensures (x + y) + z == x + (y + z)
  {
  }

  ghost predicate AllOverwritesAt(es: seq<Edit>, p: nat) {
    forall e :: e in es ==> e.Overwrite? && e.start == p <= e.end
  }

  /** Overwrites at a position the cursor has passed only push it on. */
  lemma {:induction false} SweepPassed(original: string, c: Cursor, es: seq<Edit>, p: nat)
    requires p <= |original| && AllOverwritesAt(es, p) && p < c.pos
    ensures Sweep(original, c, es) == Cursor(Max(c.pos, Farthest(es)), c.out)
    decreases |es|
  {
    if es != [] {
      SweepPassed(original, Step(original, c, es[0]), es[1..], p);
    }
  }

  /** Overwrites at a position the cursor has not passed: the first non-empty one wins. */
  lemma {:induction false} SweepOverwrites(original: string, c: Cursor, es: seq<Edit>, p: nat)
    requires p <= |original| && AllOverwritesAt(es, p) && c.pos <= p
    ensures Settled(original, Sweep(original, c, es), p)
         == Settled(original, c, p) + ZeroWidthText(es) + FirstWideText(es)
    ensures Max(Sweep(original, c, es).pos, p) == Max(Farthest(es), p)
    decreases |es|
  {
    if es != [] {
      var d := Step(original, c, es[0]);
      var x, t := Settled(original, c, p), es[0].text;
      assert Settled(original, d, p) == x + t;
      if p < es[0].end {
        SweepPassed(original, d, es[1..], p);
        assert x + t == x + "" + t;
      } else {
        SweepOverwrites(original, d, es[1..], p);
        var z, w := ZeroWidthText(es[1..]), FirstWideText(es[1..]);
        assert x + t + z + w == x + (t + z) + w;
      }
    }
  }

  // ---- the sweep computes the meaning ----

  /** The edits at one position, in sweep order. */
  function Stack(es: seq<Edit>, p: nat): seq<Edit> {
    Pick(es, p, 0) + (Pick(es, p, 1) + Pick(es, p, 2))
  }

  function Stacks(es: seq<Edit>, lo: nat, hi: nat): seq<Edit>
    requires lo <= hi
    decreases hi - lo
  {
    if lo == hi then [] else Stack(es, lo) + Stacks(es, lo + 1, hi)
  }

  lemma StackMembers(es: seq<Edit>, p: nat)
    ensures forall e :: e in Stack(es, p) ==> e in es && e.At() == p
    ensures forall e :: e in Pick(es, p, 0) ==> e in es && e.At() == p && !e.Overwrite?
    ensures forall e :: e in Pick(es, p, 1) ==> e in es && e.At() == p && !e.Overwrite?
    ensures forall e :: e in Pick(es, p, 2) ==> e in es && e.At() == p && e.Overwrite?
  {
    forall e ensures e in Pick(es, p, 0) ==> e in es && e.At() == p && e.Rank() == 0 { PickMember(es, p, 0, e); }
    forall e ensures e in Pick(es, p, 1) ==> e in es && e.At() == p && e.Rank() == 1 { PickMember(es, p, 1, e); }
    forall e ensures e in Pick(es, p, 2) ==> e in es && e.At() == p && e.Rank() == 2 { PickMember(es, p, 2, e); }
  }

  lemma {:induction false} StacksMembers(es: seq<Edit>, lo: nat, hi: nat)
    requires lo <= hi
    ensures forall e :: e in Stacks(es, lo, hi) ==> e in es && e.At() < hi
    decreases hi - lo
  {
    if lo < hi {
      StackMembers(es, lo);
      StacksMembers(es, lo + 1, hi);
    }
  }

  /** The sweep over one position, kind by kind. */
  lemma SweepStack(original: string, es: seq<Edit>, c: Cursor, p: nat)
    requires AllInBounds(es, |original|) && p <= |original|
    ensures forall e :: e in Stack(es, p) ==> e.At() <= |original|
    ensures p < c.pos ==>
      Sweep(original, c, Stack(es, p)) == Cursor(Max(c.pos, Farthest(Pick(es, p, 2))), c.out)
    ensures c.pos <= p ==>
      var d := Sweep(original, c, Stack(es, p));
      && Settled(original, d, p) == Settled(original, c, p) + Texts(Pick(es, p, 0)) + Texts(Pick(es, p, 1))
                                    + ZeroWidthText(Pick(es, p, 2)) + FirstWideText(Pick(es, p, 2))
      && Max(d.pos, p) == Max(Farthest(Pick(es, p, 2)), p)
  {
    StackMembers(es, p);
    var befores, afters, overs := Pick(es, p, 0), Pick(es, p, 1), Pick(es, p, 2);
    SweepAppend(original, c, befores, afters + overs);
    SweepInserts(original, c, befores, p);
    var c1 := Sweep(original, c, befores);
    SweepAppend(original, c1, afters, overs);
    SweepInserts(original, c1, afters, p);
    var c2 := Sweep(original, c1, afters);
    if p < c.pos {
      SweepPassed(original, c2, overs, p);
    } else {
      SweepOverwrites(original, c2, overs, p);
    }
  }

  /** Where the cursor stands says what overwrites cover. */
  lemma TracksNext(es: seq<Edit>, a: nat, c: Cursor, d: Cursor, p: nat)
    requires a <= p && Tracks(es, a, c, p)
    requires Max(d.pos, p) == Max(Max(c.pos, p), Farthest(Pick(es, p, 2)))
    ensures Tracks(es, a, d, p + 1)
    ensures Swallowed(es, p) <==> p < c.pos
    ensures Covered(es, p) <==> p < d.pos
  {
    ReachNext(es, p);
    ReachIs(es, p, p);
    ReachIs(es, p + 1, p);
    assert Covered(es, p) <==> p < Reach(es, p + 1) by {
      if Covered(es, p) {
        var o :| o in es && o.Overwrite? && o.start <= p < o.end;
        assert o.start < p + 1;
      }
    }
  }

  lemma SettledNext(original: string, es: seq<Edit>, d: Cursor, p: nat)
    requires p < |original|
    requires Covered(es, p) <==> p < d.pos
    ensures Settled(original, d, p + 1) == Settled(original, d, p) + Kept(original, es, p)
  {
    if d.pos <= p {
      assert original[d.pos..p + 1] == original[d.pos..p] + [original[p]];
    }
  }

  /** One position of the sweep adds what that position contributes. */
  lemma SweepPosition(original: string, es: seq<Edit>, a: nat, c: Cursor, p: nat)
    requires AllInBounds(es, |original|) && a <= p <= |original| && Tracks(es, a, c, p)
    ensures forall e :: e in Stack(es, p) ==> e.At() <= |original|
    ensures var d := Sweep(original, c, Stack(es, p));
            && Tracks(es, a, d, p + 1)
            && (Covered(es, p) <==> p < d.pos)
            && Settled(original, d, p) == Settled(original, c, p) + Contributions(original, es)(p).Front()
  {
    SweepStack(original, es, c, p);
    var d := Sweep(original, c, Stack(es, p));
    TracksNext(es, a, c, d, p);
    var x := Settled(original, c, p);
    if Swallowed(es, p) {
      assert Contributions(original, es)(p).Front() == "";
    } else {
      Regrouped(x, Texts(Pick(es, p, 0)), Texts(Pick(es, p, 1)), ZeroWidth(es, p), Replaced(es, p));
    }
  }

  lemma Regrouped(x: string, i: string, j: string, z: string, r: string)
    ensures x + i + j + z + r == x + ((i + j) + z + r)
  {
  }

  lemma SweepPast(original: string, es: seq<Edit>, a: nat, c: Cursor, p: nat)
    requires AllInBounds(es, |original|) && a <= p < |original| && Tracks(es, a, c, p)
    ensures forall e :: e in Stack(es, p) ==> e.At() <= |original|
    ensures var d := Sweep(original, c, Stack(es, p));
            && Tracks(es, a, d, p + 1)
            && Settled(original, d, p + 1) == Settled(original, c, p) + Contributions(original, es)(p).All()
  {
    SweepPosition(original, es, a, c, p);
    SettledNext(original, es, Sweep(original, c, Stack(es, p)), p);
  }

  lemma SweepLast(original: string, es: seq<Edit>, a: nat, c: Cursor, b: nat)
    requires AllInBounds(es, |original|) && a <= b <= |original| && Tracks(es, a, c, b)
    ensures forall e :: e in Stacks(es, b, b + 1) ==> e.At() <= |original|
    ensures Settled(original, Sweep(original, c, Stacks(es, b, b + 1)), b)
         == Settled(original, c, b) + UpTo(Contributions(original, es), b, b)
  {
    SweepPosition(original, es, a, c, b);
    assert Stacks(es, b, b + 1) == Stack(es, b) + [] == Stack(es, b);
    UpToNone(Contributions(original, es), b);
  }

  lemma UpToNone(f: nat -> Piece, b: nat)
    ensures UpTo(f, b, b) == f(b).Front()
  {
  }

  lemma {:induction false} SweepTo(original: string, es: seq<Edit>, a: nat, c: Cursor, p: nat, b: nat)
    requires AllInBounds(es, |original|) && a <= p <= b <= |original| && Tracks(es, a, c, p)
    ensures forall e :: e in Stacks(es, p, b + 1) ==> e.At() <= |original|
    ensures Settled(original, Sweep(original, c, Stacks(es, p, b + 1)), b)
         == Settled(original, c, p) + UpTo(Contributions(original, es), p, b)
    decreases b - p
  {
    StacksMembers(es, p, b + 1);
    if p == b {
      SweepLast(original, es, a, c, b);
    } else {
      SweepPast(original, es, a, c, p);
      StacksMembers(es, p + 1, b + 1);
      SweepPositions(original, es, c, p, b + 1);
      SweepTo(original, es, a, Sweep(original, c, Stack(es, p)), p + 1, b);
      StepChain(Settled(original, c, p), Contributions(original, es), p, b);
    }
  }

  lemma SweepPositions(original: string, es: seq<Edit>, c: Cursor, p: nat, hi: nat)
    requires p < hi && (forall e :: e in Stack(es, p) ==> e.At() <= |original|)
    requires forall e :: e in Stacks(es, p + 1, hi) ==> e.At() <= |original|
    ensures forall e :: e in Stacks(es, p, hi) ==> e.At() <= |original|
    ensures Sweep(original, c, Stacks(es, p, hi))
         == Sweep(original, Sweep(original, c, Stack(es, p)), Stacks(es, p + 1, hi))
  {
    SweepAppend(original, c, Stack(es, p), Stacks(es, p + 1, hi));
  }

  lemma StepChain(x: string, f: nat -> Piece, p: nat, b: nat)
    requires p < b
    ensures (x + f(p).All()) + UpTo(f, p + 1, b) == x + UpTo(f, p, b)
  {
    UpToStep(f, p, b);
  }

  /** Before the slice starts, the sweep only follows overwrites that reach into it. */
  lemma SweepSkip(original: string, es: seq<Edit>, a: nat, c: Cursor, p: nat)
    requires AllInBounds(es, |original|) && p < a <= |original|
    requires Tracks(es, a, c, p) && c.out == "" && a <= c.pos
    ensures forall e :: e in Stack(es, p) ==> e.At() <= |original|
    ensures var d := Sweep(original, c, Stack(es, p)); Tracks(es, a, d, p + 1) && d.out == "" && a <= d.pos
  {
    SweepStack(original, es, c, p);
    ReachNext(es, p);
  }

  /** One position at a time. */
  lemma SweepFirst(original: string, es: seq<Edit>, c: Cursor, p: nat, b: nat)
    requires p <= b <= |original| && AllInBounds(es, |original|)
    requires forall e :: e in Stack(es, p) ==> e.At() <= |original|
    ensures (forall e :: e in Stacks(es, p, b + 1) ==> e.At() <= |original|)
         && (forall e :: e in Stacks(es, p + 1, b + 1) ==> e.At() <= |original|)
    ensures Sweep(original, c, Stacks(es, p, b + 1))
      == Sweep(original, Sweep(original, c, Stack(es, p)), Stacks(es, p + 1, b + 1))
  {
    StacksMembers(es, p, b + 1);
    StacksMembers(es, p + 1, b + 1);
    SweepAppend(original, c, Stack(es, p), Stacks(es, p + 1, b + 1));
  }

  lemma {:induction false} SweepUpTo(original: string, es: seq<Edit>, a: nat, c: Cursor, p: nat, b: nat)
    requires AllInBounds(es, |original|) && p <= a <= b <= |original|
    requires Tracks(es, a, c, p) && c.out == "" && a <= c.pos
    ensures forall e :: e in Stacks(es, p, b + 1) ==> e.At() <= |original|
    ensures Settled(original, Sweep(original, c, Stacks(es, p, b + 1)), b)
         == UpTo(Contributions(original, es), a, b)
    decreases a - p
  {
    StacksMembers(es, p, b + 1);
    if p == a {
      SweepFromStart(original, es, a, c, b);
    } else {
      SweepSkip(original, es, a, c, p);
      var d := Sweep(original, c, Stack(es, p));
      SweepUpTo(original, es, a, d, p + 1, b);
      SweepFirst(original, es, c, p, b);
    }
  }

  lemma NothingInFront(s: string)
    ensures "" + s == s
  {
  }

  lemma SweepFromStart(original: string, es: seq<Edit>, a: nat, c: Cursor, b: nat)
    requires AllInBounds(es, |original|) && a <= b <= |original|
    requires Tracks(es, a, c, a) && c.out == "" && a <= c.pos
    ensures forall e :: e in Stacks(es, a, b + 1) ==> e.At() <= |original|
    ensures Settled(original, Sweep(original, c, Stacks(es, a, b + 1)), b)
         == UpTo(Contributions(original, es), a, b)
  {
    SweepTo(original, es, a, c, a, b);
    NothingInFront(UpTo(Contributions(original, es), a, b));
  }

  lemma FourEdits(g0: seq<Event>, g1: seq<Event>, g2: seq<Event>, tail: seq<Event>)
    ensures Edits(g0 + (g1 + (g2 + tail))) == (Edits(g0) + (Edits(g1) + Edits(g2))) + Edits(tail)
  {
    EditsAppend(g0, g1 + (g2 + tail));
    EditsAppend(g1, g2 + tail);
    EditsAppend(g2, tail);
  }

  lemma {:induction false} GroupsAreStacks(events: seq<Event>, lo: nat, hi: nat)
    requires lo <= hi
    ensures Edits(Groups(events, lo, hi)) == Stacks(Edits(events), lo, hi)
    decreases hi - lo
  {
    if lo < hi {
      GroupsAreStacks(events, lo + 1, hi);
      GroupIsPick(events, lo, 0);
      GroupIsPick(events, lo, 1);
      GroupIsPick(events, lo, 2);
      FourEdits(Group(events, lo, 0), Group(events, lo, 1), Group(events, lo, 2), Groups(events, lo + 1, hi));
    }
  }

  /** Sorting and sweeping from `a`, then copying up to `b`, reads the queue's meaning from `a` to `b`. */
  lemma SweepIsMeaning(original: string, events: seq<Event>, a: nat, b: nat)
    requires a <= b <= |original| && InQueueOrder(events)
    requires AllInBounds(Edits(events), |original|)
    requires forall x :: x in events ==> x.edit.At() <= b
    ensures forall e :: e in Edits(SortEvents(events)) ==> e.At() <= |original|
    ensures Settled(original, Sweep(original, Cursor(a, ""), Edits(SortEvents(events))), b)
         == UpTo(Contributions(original, Edits(events)), a, b)
  {
    var es := Edits(events);
    SortedIntoGroups(events, b + 1);
    GroupsAreStacks(events, 0, b + 1);
    ReachZero(es);
    SweepUpTo(original, es, a, Cursor(a, ""), 0, b);
  }

  lemma {:induction false} ReachZero(es: seq<Edit>)
    ensures Reach(es, 0) == 0
  {
    if es != [] {
      ReachZero(es[1..]);
    }
  }
}
