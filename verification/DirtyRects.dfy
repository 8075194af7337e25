/** The dirty rectangles: merging by the area heuristic and collapsing to one. */
module DirtyRects {
  import opened Arithmetic
  import opened Rects

  const MAX_DIRTS := 16

  // ---- What a list of rectangles stands for ----

  ghost predicate Covered(rs: seq<Rect>, x: int, y: int) {
    exists i :: 0 <= i < |rs| && Inside(rs[i], x, y)
  }

  predicate Encloses(box: Rect, rs: seq<Rect>) {
    forall i :: 0 <= i < |rs| ==> Within(rs[i], box)
  }

  predicate AllFit(rs: seq<Rect>, width: int, height: int) {
    forall i :: 0 <= i < |rs| ==> Fits(rs[i], width, height)
  }

  /** The areas of the first `n`. */
  function AreaSum(rs: seq<Rect>, n: nat): int
    requires n <= |rs|
  {
    if n == 0 then 0 else AreaSum(rs, n - 1) + Area(rs[n - 1])
  }

  function TotalArea(rs: seq<Rect>): int {
    AreaSum(rs, |rs|)
  }

  /** `after` is a lossy index of `before`: no more rectangles, no pixel lost, exactly the same
      overall box, and still inside any screen that held `before`. */
  ghost predicate Summarises(after: seq<Rect>, before: seq<Rect>) {
    && |after| <= |before|
    && (before != [] ==> after != [])
    && (forall x, y :: Covered(before, x, y) ==> Covered(after, x, y))
    && (forall box :: Encloses(box, before) <==> Encloses(box, after))
    && (forall w, h :: AllFit(before, w, h) ==> AllFit(after, w, h))
  }

  // ---- Merging ----

  predicate Mergeable(a: Rect, b: Rect) {
    Area(Bound(a, b)) <= Area(a) + Area(b)
  }

  /** Row `a` takes over entry `b`; the last entry fills the hole. */
  function Absorb(rs: seq<Rect>, a: nat, b: nat): (r: seq<Rect>)
    requires a < b < |rs|
    ensures |r| == |rs| - 1
  {
    rs[a := Bound(rs[a], rs[b])][b := rs[|rs| - 1]][..|rs| - 1]
  }

  /** The rest of row `a` from column `b`: each merge starts the columns over. */
  function MergeRow(rs: seq<Rect>, a: nat, b: nat): (r: seq<Rect>)
    requires a < b <= |rs|
    ensures a < |r| <= |rs|
    decreases |rs|, |rs| - b
  {
    if b == |rs| then rs
    else if Mergeable(rs[a], rs[b]) then MergeRow(Absorb(rs, a, b), a, a + 1)
    else MergeRow(rs, a, b + 1)
  }

  function MergeRows(rs: seq<Rect>, a: nat): (r: seq<Rect>)
    ensures |r| <= |rs|
    decreases |rs| - a
  {
    if a >= |rs| - 1 then rs else MergeRows(MergeRow(rs, a, a + 1), a + 1)
  }

  function Merged(rs: seq<Rect>): seq<Rect> {
    MergeRows(rs, 0)
  }

  lemma {:induction false} AreaSumAgrees(a: seq<Rect>, b: seq<Rect>, n: nat)
    requires n <= |a| && n <= |b| && forall i :: 0 <= i < n ==> a[i] == b[i]
    ensures AreaSum(a, n) == AreaSum(b, n)
  {
    if n > 0 {
      AreaSumAgrees(a, b, n - 1);
    }
  }

  lemma {:induction false} AreaSumUpdate(rs: seq<Rect>, i: nat, r: Rect, n: nat)
    requires i < n <= |rs|
    ensures AreaSum(rs[i := r], n) == AreaSum(rs, n) - Area(rs[i]) + Area(r)
  {
    if i < n - 1 {
      AreaSumUpdate(rs, i, r, n - 1);
    } else {
      AreaSumAgrees(rs[i := r], rs, n - 1);
    }
  }

  lemma AbsorbSummarises(rs: seq<Rect>, a: nat, b: nat)
    requires a < b < |rs|
    ensures Summarises(Absorb(rs, a, b), rs)
  {
    var n := |rs| - 1;
    var r := Absorb(rs, a, b);
    assert forall i :: 0 <= i < n ==>
      r[i] == if i == b then rs[n] else if i == a then Bound(rs[a], rs[b]) else rs[i];
    forall x, y | Covered(rs, x, y)
      ensures Covered(r, x, y)
    {
      var i :| 0 <= i < |rs| && Inside(rs[i], x, y);
      var j := if i == b then a else if i == n then b else i;
      assert Inside(r[j], x, y);
    }
    forall box
      ensures Encloses(box, rs) <==> Encloses(box, r)
    {
      if Encloses(box, r) {
        assert Within(r[a], box);
        forall i | 0 <= i < |rs|
          ensures Within(rs[i], box)
        {
          assert i < n && i != b ==> Within(r[i], box);
          assert b < n ==> Within(r[b], box);
        }
      }
    }
  }

  /** The hole at `b` filled with the last entry, which is then dropped. */
  lemma FilledHoleArea(rs: seq<Rect>, b: nat, n: nat)
    requires b < |rs| == n + 1
    ensures AreaSum(rs[b := rs[n]], n) == AreaSum(rs, n + 1) - Area(rs[b])
  {
    AreaSumUpdate(rs, b, rs[n], n + 1);
  }

  lemma AbsorbArea(rs: seq<Rect>, a: nat, b: nat)
    requires a < b < |rs| && Mergeable(rs[a], rs[b])
    ensures TotalArea(Absorb(rs, a, b)) <= TotalArea(rs)
  {
    var n := |rs| - 1;
    var grown := rs[a := Bound(rs[a], rs[b])];
    AreaSumUpdate(rs, a, Bound(rs[a], rs[b]), n + 1);
    FilledHoleArea(grown, b, n);
    AreaSumAgrees(Absorb(rs, a, b), grown[b := rs[n]], n);
  }

  lemma AbsorbFits(rs: seq<Rect>, a: nat, b: nat, width: int, height: int)
    requires a < b < |rs| && AllFit(rs, width, height)
    ensures AllFit(Absorb(rs, a, b), width, height)
  {
  }

  lemma {:induction false} MergeRowSummarises(rs: seq<Rect>, a: nat, b: nat)
    requires a < b <= |rs|
    ensures Summarises(MergeRow(rs, a, b), rs)
    ensures TotalArea(MergeRow(rs, a, b)) <= TotalArea(rs)
    decreases |rs|, |rs| - b
  {
    if b < |rs| {
      if Mergeable(rs[a], rs[b]) {
        AbsorbSummarises(rs, a, b);
        AbsorbArea(rs, a, b);
        MergeRowSummarises(Absorb(rs, a, b), a, a + 1);
      } else {
        MergeRowSummarises(rs, a, b + 1);
      }
    }
  }

  lemma {:induction false} MergeRowsSummarises(rs: seq<Rect>, a: nat)
    ensures Summarises(MergeRows(rs, a), rs)
    ensures TotalArea(MergeRows(rs, a)) <= TotalArea(rs)
    decreases |rs| - a
  {
    if a < |rs| - 1 {
      MergeRowSummarises(rs, a, a + 1);
      MergeRowsSummarises(MergeRow(rs, a, a + 1), a + 1);
    }
  }

  /** Merging loses no pixel, keeps the overall box exactly, and never adds rectangles or area. */
  lemma MergedSummarises(rs: seq<Rect>)
    ensures Summarises(Merged(rs), rs)
    ensures TotalArea(Merged(rs)) <= TotalArea(rs)
  {
    MergeRowsSummarises(rs, 0);
  }

  ghost predicate RowSettled(rs: seq<Rect>, a: nat, upTo: nat)
    requires a < upTo <= |rs|
  {
    forall b :: a < b < upTo ==> !Mergeable(rs[a], rs[b])
  }

  /** When row `a` is finished its rectangle can be merged with no later one, and no earlier
      row was touched. */
  lemma {:induction false} MergeRowSettles(rs: seq<Rect>, a: nat, b: nat)
    requires a < b <= |rs| && RowSettled(rs, a, b)
    ensures var r := MergeRow(rs, a, b); RowSettled(r, a, |r|) && r[..a] == rs[..a]
    decreases |rs|, |rs| - b
  {
    if b < |rs| {
      if Mergeable(rs[a], rs[b]) {
        MergeRowSettles(Absorb(rs, a, b), a, a + 1);
        assert Absorb(rs, a, b)[..a] == rs[..a];
      } else {
        MergeRowSettles(rs, a, b + 1);
      }
    }
  }

  ghost predicate PairwiseSettled(rs: seq<Rect>) {
    forall a, b :: 0 <= a < b < |rs| ==> !Mergeable(rs[a], rs[b])
  }

  lemma MergesLastTwo(a: Rect, b: Rect, c: Rect)
    requires !Mergeable(a, b) && !Mergeable(a, c) && Mergeable(b, c)
    ensures Merged([a, b, c]) == [a, Bound(b, c)]
  {
    var rs, d := [a, b, c], [a, Bound(b, c)];
    assert MergeRow(rs, 0, 1) == MergeRow(rs, 0, 2) == MergeRow(rs, 0, 3) == rs;
    assert Absorb(rs, 1, 2) == d;
    assert MergeRow(rs, 1, 2) == MergeRow(d, 1, 2) == d;
    assert Merged(rs) == MergeRows(rs, 1) == MergeRows(d, 2) == d;
  }

  /** A finished pass need not leave every pair unmergeable: a merge in row 1 can make
      rows 0 and 1 mergeable. */
  lemma MergedNeedNotSettle()
    ensures exists rs :: AllFit(rs, MAX_WIDTH, MAX_HEIGHT) && !PairwiseSettled(Merged(rs))
  {
    var a, b, c := Rect(2, 0, 4, 4), Rect(0, 0, 2, 2), Rect(0, 2, 2, 4);
    MergesLastTwo(a, b, c);
    assert Mergeable([a, Bound(b, c)][0], [a, Bound(b, c)][1]);
    assert !PairwiseSettled(Merged([a, b, c]));
  }

  lemma {:induction false} MergeRowShrinksOrStays(rs: seq<Rect>, a: nat, b: nat)
    requires a < b <= |rs|
    ensures var r := MergeRow(rs, a, b);
      if forall c :: b <= c < |rs| ==> !Mergeable(rs[a], rs[c]) then r == rs else |r| < |rs|
    decreases |rs|, |rs| - b
  {
    if b < |rs| && !Mergeable(rs[a], rs[b]) {
      MergeRowShrinksOrStays(rs, a, b + 1);
    }
  }

  lemma {:induction false} MergeRowsStays(rs: seq<Rect>, a: nat)
    requires |MergeRows(rs, a)| == |rs|
    ensures MergeRows(rs, a) == rs
    ensures forall i, b :: a <= i < b < |rs| ==> !Mergeable(rs[i], rs[b])
    decreases |rs| - a
  {
    if a < |rs| - 1 {
      MergeRowShrinksOrStays(rs, a, a + 1);
      MergeRowsStays(rs, a + 1);
    }
  }

  lemma {:induction false} SettledRowsStay(rs: seq<Rect>, a: nat)
    requires PairwiseSettled(rs)
    ensures MergeRows(rs, a) == rs
    decreases |rs| - a
  {
    if a < |rs| - 1 {
      MergeRowShrinksOrStays(rs, a, a + 1);
      SettledRowsStay(rs, a + 1);
    }
  }

  /** Exactly the pairwise settled lists are left alone by a pass, and those are exactly the
      lists that a pass does not shorten. */
  lemma MergedFixpoint(rs: seq<Rect>)
    ensures PairwiseSettled(rs) <==> Merged(rs) == rs
    ensures PairwiseSettled(rs) <==> |Merged(rs)| == |rs|
  {
    if PairwiseSettled(rs) {
      SettledRowsStay(rs, 0);
    }
    if |Merged(rs)| == |rs| {
      MergeRowsStays(rs, 0);
    }
  }

  /** The area as the C code computes it, in a signed int. */
  method RectArea(r: Rect) returns (area: Int32)
    requires Fits(r, MAX_WIDTH, MAX_HEIGHT)
    ensures area == Area(r) && 0 <= area <= 0x3FFF_FFFF
  {
    AreaFitsInt32(r);
    TimesIsProduct(r.x2 - r.x1, r.y2 - r.y1);
    area := (r.x2 - r.x1) * (r.y2 - r.y1);
  }

  /** Whether two rectangles should be merged; neither the areas nor their sum overflow. */
  method CompareAreas(a: Rect, b: Rect) returns (bounding: Rect, merge: bool)
    requires Fits(a, MAX_WIDTH, MAX_HEIGHT) && Fits(b, MAX_WIDTH, MAX_HEIGHT)
    ensures bounding == Bound(a, b) && Fits(bounding, MAX_WIDTH, MAX_HEIGHT)
    ensures merge == Mergeable(a, b)
  {
    bounding := Bound(a, b);
    var boundingArea := RectArea(bounding);
    var areaA := RectArea(a);
    var areaB := RectArea(b);
    var sum: Int32 := areaA + areaB;
    merge := boundingArea <= sum;
  }

  method AbsorbInPlace(rects: array<Rect>, a: nat, b: nat, count: nat, bounding: Rect) returns (newCount: nat)
    requires a < b < count <= rects.Length && bounding == Bound(rects[a], rects[b])
    requires AllFit(rects[..count], MAX_WIDTH, MAX_HEIGHT)
    modifies rects
    ensures newCount == count - 1
    ensures rects[..newCount] == Absorb(old(rects[..count]), a, b)
    ensures AllFit(rects[..newCount], MAX_WIDTH, MAX_HEIGHT)
  {
    ghost var before := rects[..count];
    rects[a] := bounding;
    rects[b] := rects[count - 1];
    newCount := count - 1;
    assert rects[..newCount] == Absorb(before, a, b);
    AbsorbFits(before, a, b, MAX_WIDTH, MAX_HEIGHT);
  }

  /** One round of the inner loop: on a merge the row starts again. */
  method MergePair(rects: array<Rect>, a: nat, b: nat, count: nat) returns (newCount: nat, newB: nat)
    requires a < b < count <= rects.Length
    requires AllFit(rects[..count], MAX_WIDTH, MAX_HEIGHT)
    modifies rects
    ensures a < newB <= newCount <= count && (newCount == count ==> newB == b + 1)
    ensures MergeRow(rects[..newCount], a, newB) == MergeRow(old(rects[..count]), a, b)
    ensures AllFit(rects[..newCount], MAX_WIDTH, MAX_HEIGHT)
  {
    ghost var before := rects[..count];
    assert before[a] == rects[a] && before[b] == rects[b];
    var bounding, merge := CompareAreas(rects[a], rects[b]);
    if merge {
      newCount := AbsorbInPlace(rects, a, b, count, bounding);
      newB := a + 1;
    } else {
      newCount, newB := count, b + 1;
    }
  }

  /** The inner loop: finishes row `a` in place. */
  method MergeRowInPlace(rects: array<Rect>, a: nat, count: nat) returns (newCount: nat)
    requires a < count <= rects.Length
    requires AllFit(rects[..count], MAX_WIDTH, MAX_HEIGHT)
    modifies rects
    ensures a < newCount <= count
    ensures rects[..newCount] == MergeRow(old(rects[..count]), a, a + 1)
    ensures AllFit(rects[..newCount], MAX_WIDTH, MAX_HEIGHT)
  {
    newCount := count;
    var b := a + 1;
    while b < newCount
      invariant a < b <= newCount <= count
      invariant AllFit(rects[..newCount], MAX_WIDTH, MAX_HEIGHT)
      invariant MergeRow(rects[..newCount], a, b) == MergeRow(old(rects[..count]), a, a + 1)
      decreases newCount, newCount - b
    {
      newCount, b := MergePair(rects, a, b, newCount);
    }
  }

  /** The in-place pass: the first `count` entries of `rects` become their merged list. */
  method MergeDirtyRects(rects: array<Rect>, count: nat) returns (newCount: nat)
    requires count <= rects.Length
    requires AllFit(rects[..count], MAX_WIDTH, MAX_HEIGHT)
    modifies rects
    ensures newCount <= count
    ensures rects[..newCount] == Merged(old(rects[..count]))
    ensures AllFit(rects[..newCount], MAX_WIDTH, MAX_HEIGHT)
  {
    newCount := count;
    var a := 0;
    while a < newCount - 1
      invariant newCount <= count && AllFit(rects[..newCount], MAX_WIDTH, MAX_HEIGHT)
      invariant MergeRows(rects[..newCount], a) == Merged(old(rects[..count]))
      decreases count - a
    {
      newCount := MergeRowInPlace(rects, a, newCount);
      a := a + 1;
    }
  }

  // ---- Collapsing ----

  /** The box of a non-empty list: the least box enclosing every entry. */
  function Box(rs: seq<Rect>): (r: Rect)
    requires rs != []
    ensures forall box :: Within(r, box) <==> Encloses(box, rs)
  {
    if |rs| == 1 then rs[0]
    else
      var n := |rs| - 1;
      assert rs == rs[..n] + [rs[n]];
      Bound(Box(rs[..n]), rs[n])
  }

  function Collapsed(rs: seq<Rect>): seq<Rect>
    requires rs != []
  {
    [Box(rs)]
  }

  lemma CollapsedSummarises(rs: seq<Rect>)
    requires rs != []
    ensures Summarises(Collapsed(rs), rs)
  {
    var c := Collapsed(rs);
    var box := Box(rs);
    assert Encloses(box, rs);
    forall x, y | Covered(rs, x, y)
      ensures Covered(c, x, y)
    {
      var i :| 0 <= i < |rs| && Inside(rs[i], x, y);
      assert Within(rs[i], box) && Inside(c[0], x, y);
    }
    forall w, h | AllFit(rs, w, h)
      ensures AllFit(c, w, h)
    {
      BoxFits(rs, w, h);
    }
  }

  lemma {:induction false} BoxFits(rs: seq<Rect>, w: int, h: int)
    requires rs != [] && AllFit(rs, w, h)
    ensures Fits(Box(rs), w, h)
  {
    if |rs| > 1 {
      BoxFits(rs[..|rs| - 1], w, h);
    }
  }

  method CollapseDirtyRects(rects: array<Rect>, count: nat) returns (newCount: nat)
    requires 1 <= count <= rects.Length
    modifies rects
    ensures newCount == 1
    ensures rects[..newCount] == Collapsed(old(rects[..count]))
  {
    ghost var was := rects[..count];
    var i := 1;
    while i < count
      invariant 1 <= i <= count
      invariant rects[0] == Box(was[..i])
      invariant forall j :: 1 <= j < count ==> rects[j] == was[j]
    {
      assert was[..i + 1][..i] == was[..i];
      rects[0] := Bound(rects[0], rects[i]);
      i := i + 1;
    }
    assert was[..count] == was;
    newCount := 1;
  }

  // ---- The two uses of the list ----

  /** Recording one more rectangle: a full list is merged, and collapsed if that freed no slot. */
  function Marked(dirts: seq<Rect>, rect: Rect): seq<Rect>
    requires |dirts| <= MAX_DIRTS
  {
    var merged := if |dirts| == MAX_DIRTS then Merged(dirts) else dirts;
    var roomy := if |merged| == MAX_DIRTS then Collapsed(merged) else merged;
    roomy + [rect]
  }

  /** Taking the list for a client that accepts `numRects` rectangles. */
  function Taken(dirts: seq<Rect>, numRects: int): seq<Rect>
    requires numRects >= 1
  {
    var merged := Merged(dirts);
    if |merged| > numRects then Collapsed(merged) else merged
  }

  /** The new list never overflows, covers the old damage and the new rectangle, and its overall
      box grows by no more than that rectangle. */
  lemma MarkedCovers(dirts: seq<Rect>, rect: Rect)
    requires |dirts| <= MAX_DIRTS
    ensures var r := Marked(dirts, rect);
      && 1 <= |r| <= MAX_DIRTS
      && (forall x, y :: Covered(dirts, x, y) || Inside(rect, x, y) ==> Covered(r, x, y))
      && (forall box :: Encloses(box, r) <==> Encloses(box, dirts) && Within(rect, box))
      && (forall w, h :: AllFit(dirts, w, h) && Fits(rect, w, h) ==> AllFit(r, w, h))
  {
    var merged := if |dirts| == MAX_DIRTS then Merged(dirts) else dirts;
    var roomy := if |merged| == MAX_DIRTS then Collapsed(merged) else merged;
    MergedSummarises(dirts);
    if |merged| == MAX_DIRTS {
      CollapsedSummarises(merged);
    }
    var r := Marked(dirts, rect);
    assert r[..|roomy|] == roomy && r[|roomy|] == rect;
    assert Summarises(roomy, dirts);
    forall x, y | Covered(dirts, x, y) || Inside(rect, x, y)
      ensures Covered(r, x, y)
    {
      if Covered(dirts, x, y) {
        var i :| 0 <= i < |roomy| && Inside(roomy[i], x, y);
        assert Inside(r[i], x, y);
      } else {
        assert Inside(r[|roomy|], x, y);
      }
    }
    forall box
      ensures Encloses(box, r) <==> Encloses(box, roomy) && Within(rect, box)
    {
      assert forall i :: 0 <= i < |roomy| ==> r[i] == roomy[i];
    }
  }

  lemma TotalAreaAppend(rs: seq<Rect>, r: Rect)
    ensures TotalArea(rs + [r]) == TotalArea(rs) + Area(r)
  {
    AreaSumAgrees(rs, rs + [r], |rs|);
  }

  /** No more precision is given up than there has to be: a list with a free slot keeps its entries, a full one
      in which something can be merged takes no more area, and only a full one in which nothing can be merged
      is collapsed. */
  lemma MarkedSpares(dirts: seq<Rect>, rect: Rect)
    requires |dirts| <= MAX_DIRTS
    ensures var r := Marked(dirts, rect);
      && (|dirts| < 16 ==> r == dirts + [rect])
      && (|dirts| == 16 && !PairwiseSettled(dirts) ==> TotalArea(r) <= TotalArea(dirts) + Area(rect))
      && (|dirts| == 16 && PairwiseSettled(dirts) ==> r == [Box(dirts)] + [rect])
  {
    MergedFixpoint(dirts);
    MergedSummarises(dirts);
    TotalAreaAppend(Merged(dirts), rect);
  }

  /** On a screen the list stays on the screen. */
  lemma MarkedFits(dirts: seq<Rect>, rect: Rect)
    requires |dirts| <= MAX_DIRTS && AllFit(dirts, MAX_WIDTH, MAX_HEIGHT) && Fits(rect, MAX_WIDTH, MAX_HEIGHT)
    ensures |Marked(dirts, rect)| <= MAX_DIRTS && AllFit(Marked(dirts, rect), MAX_WIDTH, MAX_HEIGHT)
  {
    MarkedCovers(dirts, rect);
  }

  /** What a grab takes covers everything recorded and honours the client's limit. */
  lemma TakenCovers(dirts: seq<Rect>, numRects: int)
    requires numRects >= 1
    ensures Summarises(Taken(dirts, numRects), dirts)
    ensures |Taken(dirts, numRects)| <= numRects
  {
    MergedSummarises(dirts);
    if |Merged(dirts)| > numRects {
      CollapsedSummarises(Merged(dirts));
    }
  }

  /** It always merges, and collapses only what merging leaves too long for the client. */
  lemma TakenSpares(dirts: seq<Rect>, numRects: int)
    requires numRects >= 1
    ensures var r := Taken(dirts, numRects);
      && (PairwiseSettled(dirts) && |dirts| <= numRects ==> r == dirts)
      && (!PairwiseSettled(dirts) ==> |r| < |dirts|)
      && (|Merged(dirts)| <= numRects ==> TotalArea(r) <= TotalArea(dirts) && |r| == |Merged(dirts)|)
  {
    MergedFixpoint(dirts);
    MergedSummarises(dirts);
  }

  /** The list a grab takes fits a screen exactly when everything recorded does: merging and collapsing
      neither hide a rectangle that is too large nor make one. */
  lemma TakenFitsIff(dirts: seq<Rect>, numRects: int, width: int, height: int)
    requires numRects >= 1 && AllFit(dirts, MAX_WIDTH, MAX_HEIGHT)
    ensures AllFit(Taken(dirts, numRects), width, height) <==> AllFit(dirts, width, height)
  {
    var taken := Taken(dirts, numRects);
    TakenCovers(dirts, numRects);
    if AllFit(taken, width, height) && dirts != [] {
      var box := Box(taken);
      BoxFits(taken, width, height);
      assert Encloses(box, dirts);
      forall i | 0 <= i < |dirts|
        ensures Fits(dirts[i], width, height)
      {
        assert Within(dirts[i], box) && Fits(dirts[i], MAX_WIDTH, MAX_HEIGHT);
      }
    }
  }
}
