/**
 * The segment merger of the line detector (LineDetection::mergeLines), as a
 * function of the segment list. SweepOuter and SweepInner follow the two nested
 * index loops step for step: a qualifying pair (i, j) pushes one merged segment,
 * erases entry j and then entry i, and leaves j where it was (the `--j` cancels
 * the loop's `++j`), while the copy `line1` of the old entry i keeps being
 * compared with the entries that follow.
 */
module SegmentMerge {
  import opened Geometry
  import opened Vectors

  /** The state when both loops have finished: what is left of the list, and the merged segments. */
  datatype Sweep = Sweep(rest: seq<Segment>, merged: seq<Segment>)

  /** The outer loop at index i: `for (i = ...; i < lines.size(); ++i)`. */
  function SweepOuter(m: Measure, lines: seq<Segment>, merged: seq<Segment>, i: nat): Sweep
    requires i <= |lines| + 1
    decreases |lines| + 1 - i, |lines| + 2 - i
  {
    if i < |lines| then SweepInner(m, lines, merged, i, lines[i], i + 1)
    else Sweep(lines, merged)
  }

  /** The inner loop at index j, comparing the copy `line1` with lines[j]. */
  function SweepInner(m: Measure, lines: seq<Segment>, merged: seq<Segment>, i: nat, line1: Segment, j: nat): Sweep
    requires i < j <= |lines| + 1
    decreases |lines| + 1 - i, |lines| + 1 - j
  {
    if j < |lines| then
      var line2 := lines[j];
      if Close(m, line1, line2) then
        SweepInner(m, Erase(Erase(lines, j), i), merged + [Join(line1, line2)], i, line1, j)
      else
        SweepInner(m, lines, merged, i, line1, j + 1)
    else
      SweepOuter(m, lines, merged, i + 1)
  }

  /** The segments still in the list when the sweep ends, in their original order. */
  function Survivors(m: Measure, lines: seq<Segment>): seq<Segment>
  {
    SweepOuter(m, lines, [], 0).rest
  }

  /** The segments the sweep created, in creation order. */
  function MergedSegments(m: Measure, lines: seq<Segment>): seq<Segment>
  {
    SweepOuter(m, lines, [], 0).merged
  }

  /** The list mergeLines leaves behind: the survivors followed by the merged segments. */
  function Merge(m: Measure, lines: seq<Segment>): seq<Segment>
  {
    Survivors(m, lines) + MergedSegments(m, lines)
  }

  /** `seg` joins the start of some segment of `lines` to the end of a later one, and the two passed both tests. */
  ghost predicate JoinsOrderedPair(m: Measure, seg: Segment, lines: seq<Segment>)
  {
    exists a, b :: Subsequence([a, b], lines) && Close(m, a, b) && seg == Join(a, b)
  }

  /** Every segment of `segs` from index `from` on joins an ordered close pair of `lines`. */
  ghost predicate JoinsFrom(m: Measure, segs: seq<Segment>, from: nat, lines: seq<Segment>)
  {
    forall k :: from <= k < |segs| ==> JoinsOrderedPair(m, segs[k], lines)
  }

  /** Some pair at positions p < q of `lines` passes both tests. */
  ghost predicate HasClosePair(m: Measure, lines: seq<Segment>)
  {
    exists p, q :: 0 <= p < q < |lines| && Close(m, lines[p], lines[q])
  }

  /** What remains of the inner loop's view: the copy line1 followed by the entries from j on. */
  function Ahead(lines: seq<Segment>, line1: Segment, j: nat): seq<Segment>
  {
    [line1] + (if j <= |lines| then lines[j..] else [])
  }

  // ---------------------------------------------------------------------------
  // What one sweep does to the list

  lemma {:induction false} OuterCount(m: Measure, lines: seq<Segment>, merged: seq<Segment>, i: nat)
    requires i <= |lines| + 1
    ensures var s := SweepOuter(m, lines, merged, i);
      && |s.rest| + 2 * |s.merged| == |lines| + 2 * |merged|
      && merged <= s.merged
      && Subsequence(s.rest, lines)
    decreases |lines| + 1 - i, |lines| + 2 - i
  {
    if i < |lines| {
      InnerCount(m, lines, merged, i, lines[i], i + 1);
    } else {
      SubsequenceReflexive(lines);
    }
  }

  lemma {:induction false} InnerCount(m: Measure, lines: seq<Segment>, merged: seq<Segment>, i: nat, line1: Segment, j: nat)
    requires i < j <= |lines| + 1
    ensures var s := SweepInner(m, lines, merged, i, line1, j);
      && |s.rest| + 2 * |s.merged| == |lines| + 2 * |merged|
      && merged <= s.merged
      && Subsequence(s.rest, lines)
    decreases |lines| + 1 - i, |lines| + 1 - j
  {
    if j < |lines| {
      if Close(m, line1, lines[j]) {
        var after := Erase(Erase(lines, j), i);
        var merged' := merged + [Join(line1, lines[j])];
        InnerCount(m, after, merged', i, line1, j);
        var s := SweepInner(m, after, merged', i, line1, j);
        SubsequenceOfErase(lines, j);
        SubsequenceOfErase(Erase(lines, j), i);
        SubsequenceTransitive(after, Erase(lines, j), lines);
        SubsequenceTransitive(s.rest, after, lines);
      } else {
        InnerCount(m, lines, merged, i, line1, j + 1);
      }
    } else {
      OuterCount(m, lines, merged, i + 1);
    }
  }

  lemma {:induction false} OuterOrigins(m: Measure, orig: seq<Segment>, lines: seq<Segment>, merged: seq<Segment>, i: nat)
    requires i <= |lines| + 1
    requires Subsequence(lines, orig)
    ensures JoinsFrom(m, SweepOuter(m, lines, merged, i).merged, |merged|, orig)
    decreases |lines| + 1 - i, |lines| + 2 - i
  {
    if i < |lines| {
      assert Ahead(lines, lines[i], i + 1) == lines[i..];
      SubsequenceOfSuffix(lines, i);
      SubsequenceTransitive(lines[i..], lines, orig);
      InnerOrigins(m, orig, lines, merged, i, lines[i], i + 1);
      assert SweepOuter(m, lines, merged, i) == SweepInner(m, lines, merged, i, lines[i], i + 1);
    }
  }

  lemma {:induction false} InnerOrigins(m: Measure, orig: seq<Segment>, lines: seq<Segment>, merged: seq<Segment>, i: nat, line1: Segment, j: nat)
    requires i < j <= |lines| + 1
    requires Subsequence(lines, orig)
    requires Subsequence(Ahead(lines, line1, j), orig)
    ensures JoinsFrom(m, SweepInner(m, lines, merged, i, line1, j).merged, |merged|, orig)
    decreases |lines| + 1 - i, |lines| + 1 - j
  {
    if j < |lines| {
      var line2 := lines[j];
      var ahead := Ahead(lines, line1, j);
      if Close(m, line1, line2) {
        var after := Erase(Erase(lines, j), i);
        var merged' := merged + [Join(line1, line2)];
        // The list shrinks by two and is still a subsequence of the original.
        SubsequenceOfErase(lines, j);
        SubsequenceOfErase(Erase(lines, j), i);
        SubsequenceTransitive(after, Erase(lines, j), lines);
        SubsequenceTransitive(after, lines, orig);
        // The pair just merged occurs in this order in the original.
        PairOfAhead(lines, line1, j);
        SubsequenceTransitive([line1, line2], ahead, orig);
        // line1 still comes before everything from j on.
        AheadAfterMerge(lines, line1, i, j);
        SubsequenceTransitive(Ahead(after, line1, j), ahead, orig);
        InnerOrigins(m, orig, after, merged', i, line1, j);
        InnerCount(m, after, merged', i, line1, j);
        var s := SweepInner(m, after, merged', i, line1, j);
        assert s.merged[|merged|] == merged'[|merged|] == Join(line1, line2);
        assert JoinsOrderedPair(m, s.merged[|merged|], orig);
        assert JoinsFrom(m, s.merged, |merged|, orig);
      } else {
        AheadStep(lines, line1, j);
        SubsequenceTransitive(Ahead(lines, line1, j + 1), ahead, orig);
        InnerOrigins(m, orig, lines, merged, i, line1, j + 1);
        assert SweepInner(m, lines, merged, i, line1, j) == SweepInner(m, lines, merged, i, line1, j + 1);
      }
    } else {
      OuterOrigins(m, orig, lines, merged, i + 1);
    }
  }

  lemma PairOfAhead(lines: seq<Segment>, line1: Segment, j: nat)
    requires j < |lines|
    ensures Subsequence([line1, lines[j]], Ahead(lines, line1, j))
  {
    var ahead := Ahead(lines, line1, j);
    assert ahead[1..] == lines[j..];
    assert [line1, lines[j]][1..] == [lines[j]];
    assert lines[j..][1..] == lines[j + 1..];
    assert [lines[j]][1..] == [];
  }

  lemma AheadStep(lines: seq<Segment>, line1: Segment, j: nat)
    requires j < |lines|
    ensures Subsequence(Ahead(lines, line1, j + 1), Ahead(lines, line1, j))
  {
    var ahead := Ahead(lines, line1, j);
    assert Erase(ahead, 1) == Ahead(lines, line1, j + 1);
    SubsequenceOfErase(ahead, 1);
  }

  lemma AheadAfterMerge(lines: seq<Segment>, line1: Segment, i: nat, j: nat)
    requires i < j < |lines|
    ensures Subsequence(Ahead(Erase(Erase(lines, j), i), line1, j), Ahead(lines, line1, j))
  {
    var after := Erase(Erase(lines, j), i);
    var tail := if j <= |after| then after[j..] else [];
    if j + 2 <= |lines| {
      assert tail == lines[j..][2..];
      SubsequenceOfSuffix(lines[j..], 2);
    }
    SubsequenceCons(line1, tail, lines[j..]);
  }

  // ---------------------------------------------------------------------------
  // Properties of mergeLines

  /**
   * The result is the surviving input segments, in their original relative order,
   * followed by the merged segments; each merge removed two entries and added one,
   * and each merged segment joins the start of an earlier input segment to the end
   * of a later one that passed both tests.
   */
  lemma MergeShape(m: Measure, lines: seq<Segment>)
    ensures Merge(m, lines) == Survivors(m, lines) + MergedSegments(m, lines)
    ensures |Survivors(m, lines)| == |lines| - 2 * |MergedSegments(m, lines)|
    ensures |Merge(m, lines)| == |lines| - |MergedSegments(m, lines)|
    ensures Subsequence(Survivors(m, lines), lines)
    ensures forall seg :: seg in MergedSegments(m, lines) ==> JoinsOrderedPair(m, seg, lines)
  {
    SubsequenceReflexive(lines);
    OuterCount(m, lines, [], 0);
    OuterOrigins(m, lines, lines, [], 0);
    forall seg | seg in MergedSegments(m, lines)
      ensures JoinsOrderedPair(m, seg, lines)
    {
      var k :| 0 <= k < |MergedSegments(m, lines)| && MergedSegments(m, lines)[k] == seg;
    }
  }

  lemma {:induction false} OuterWithoutClosePair(m: Measure, lines: seq<Segment>, merged: seq<Segment>, i: nat)
    requires i <= |lines| + 1
    requires !HasClosePair(m, lines)
    ensures SweepOuter(m, lines, merged, i) == Sweep(lines, merged)
    decreases |lines| + 1 - i, |lines| + 2 - i
  {
    if i < |lines| {
      InnerWithoutClosePair(m, lines, merged, i, i + 1);
    }
  }

  lemma {:induction false} InnerWithoutClosePair(m: Measure, lines: seq<Segment>, merged: seq<Segment>, i: nat, j: nat)
    requires i < j <= |lines|
    requires !HasClosePair(m, lines)
    ensures SweepInner(m, lines, merged, i, lines[i], j) == Sweep(lines, merged)
    decreases |lines| + 1 - i, |lines| + 1 - j
  {
    if j < |lines| {
      assert !Close(m, lines[i], lines[j]);
      InnerWithoutClosePair(m, lines, merged, i, j + 1);
    } else {
      OuterWithoutClosePair(m, lines, merged, i + 1);
    }
  }

  lemma {:induction false} OuterWithClosePair(m: Measure, lines: seq<Segment>, merged: seq<Segment>, i: nat, p: nat, q: nat)
    requires i <= p < q < |lines| && Close(m, lines[p], lines[q])
    ensures |SweepOuter(m, lines, merged, i).merged| > |merged|
    decreases |lines| + 1 - i, |lines| + 2 - i
  {
    InnerWithClosePair(m, lines, merged, i, i + 1, p, q);
  }

  /** While line1 is still lines[i] and no merge has happened, a close pair (p, q) not yet passed is found. */
  lemma {:induction false} InnerWithClosePair(m: Measure, lines: seq<Segment>, merged: seq<Segment>, i: nat, j: nat, p: nat, q: nat)
    requires i < j <= |lines|
    requires i <= p < q < |lines| && Close(m, lines[p], lines[q])
    requires p == i ==> j <= q
    ensures |SweepInner(m, lines, merged, i, lines[i], j).merged| > |merged|
    decreases |lines| + 1 - i, |lines| + 1 - j
  {
    if j < |lines| {
      if Close(m, lines[i], lines[j]) {
        InnerCount(m, Erase(Erase(lines, j), i), merged + [Join(lines[i], lines[j])], i, lines[i], j);
      } else {
        InnerWithClosePair(m, lines, merged, i, j + 1, p, q);
      }
    } else {
      OuterWithClosePair(m, lines, merged, i + 1, p, q);
    }
  }

  /** The list comes back unchanged exactly when no pair p < q of the input passes both tests. */
  lemma MergeUnchangedIff(m: Measure, lines: seq<Segment>)
    ensures Merge(m, lines) == lines <==> !HasClosePair(m, lines)
  {
    if HasClosePair(m, lines) {
      var p, q :| 0 <= p < q < |lines| && Close(m, lines[p], lines[q]);
      OuterWithClosePair(m, lines, [], 0, p, q);
      MergeShape(m, lines);
    } else {
      OuterWithoutClosePair(m, lines, [], 0);
    }
  }

  /** With no segment or a single one there is no pair to merge. */
  lemma MergeShortList(m: Measure, lines: seq<Segment>)
    requires |lines| <= 1
    ensures Merge(m, lines) == lines
  {
    MergeUnchangedIff(m, lines);
  }

  /** Two segments merge into one running from the first's start to the second's end exactly when they pass both tests. */
  lemma MergeTwo(m: Measure, a: Segment, b: Segment)
    ensures Merge(m, [a, b]) == if Close(m, a, b) then [Join(a, b)] else [a, b]
  {
    var lines := [a, b];
    if Close(m, a, b) {
      var after := Erase(Erase(lines, 1), 0);
      assert after == [];
      calc {
        SweepOuter(m, lines, [], 0);
        SweepInner(m, lines, [], 0, a, 1);
        SweepInner(m, after, [Join(a, b)], 0, a, 1);
        SweepOuter(m, after, [Join(a, b)], 1);
      }
    } else {
      MergeUnchangedIff(m, lines);
    }
  }

  lemma EraseSecondThenFirst(x: Segment, y: Segment, tail: seq<Segment>)
    ensures Erase(Erase([x, y] + tail, 1), 0) == tail
  {
    assert Erase([x, y] + tail, 1) == [x] + tail;
    assert Erase([x] + tail, 0) == tail;
  }

  /**
   * After the first merge for i = 0 the list is [c, d] and j stays at 1, so the copy of a
   * is compared with d and never with c. A second merge then erases d and whatever sits
   * at index 0, which is c: c disappears without contributing to any merged segment,
   * and a starts two merged segments.
   */
  lemma MergeDropsUncompared(m: Measure, a: Segment, b: Segment, c: Segment, d: Segment)
    requires Close(m, a, b) && Close(m, a, d)
    ensures Merge(m, [a, b, c, d]) == [Join(a, b), Join(a, d)]
  {
    var lines := [a, b, c, d];
    var once := Erase(Erase(lines, 1), 0);
    EraseSecondThenFirst(a, b, [c, d]);
    var twice := Erase(Erase(once, 1), 0);
    EraseSecondThenFirst(c, d, []);
    assert [] + [Join(a, b)] == [Join(a, b)];
    assert [Join(a, b)] + [Join(a, d)] == [Join(a, b), Join(a, d)];
    calc {
      SweepOuter(m, lines, [], 0);
      SweepInner(m, lines, [], 0, a, 1);
      { assert lines[1] == b; }
      SweepInner(m, once, [Join(a, b)], 0, a, 1);
      { assert once[1] == d; }
      SweepInner(m, twice, [Join(a, b), Join(a, d)], 0, a, 1);
      SweepOuter(m, twice, [Join(a, b), Join(a, d)], 1);
    }
  }

  /**
   * The entry right after a merged pair is skipped: c is never compared with a, and since
   * the outer index moves past it, c is never the outer segment either, so c and d stay
   * apart even when they pass both tests.
   */
  lemma MergeSkipsAfterPair(m: Measure, a: Segment, b: Segment, c: Segment, d: Segment)
    requires Close(m, a, b) && !Close(m, a, d)
    ensures Merge(m, [a, b, c, d]) == [c, d, Join(a, b)]
  {
    var lines := [a, b, c, d];
    var once := Erase(Erase(lines, 1), 0);
    EraseSecondThenFirst(a, b, [c, d]);
    assert [] + [Join(a, b)] == [Join(a, b)];
    calc {
      SweepOuter(m, lines, [], 0);
      SweepInner(m, lines, [], 0, a, 1);
      { assert lines[1] == b; }
      SweepInner(m, once, [Join(a, b)], 0, a, 1);
      { assert once[1] == d; }
      SweepInner(m, once, [Join(a, b)], 0, a, 2);
      SweepOuter(m, once, [Join(a, b)], 1);
      SweepInner(m, once, [Join(a, b)], 1, d, 2);
      SweepOuter(m, once, [Join(a, b)], 2);
    }
  }

  /**
   * When the merged partner is not the entry right after i, the entry that followed it
   * moves down behind the inner index: d is never compared with a, yet it is not skipped
   * as an outer segment, since the entry pushed into index 0 is b. At i = 1 the outer
   * segment is d, and it merges with e.
   */
  lemma MergeOuterAfterShift(m: Measure, a: Segment, b: Segment, c: Segment, d: Segment, e: Segment)
    requires !Close(m, a, b) && Close(m, a, c) && !Close(m, a, e) && Close(m, d, e)
    ensures Merge(m, [a, b, c, d, e]) == [b, Join(a, c), Join(d, e)]
  {
    var lines := [a, b, c, d, e];
    var once := Erase(Erase(lines, 2), 0);
    assert Erase(lines, 2) == [a, b, d, e];
    assert once == [b, d, e];
    var twice := Erase(Erase(once, 2), 1);
    assert Erase(once, 2) == [b, d];
    assert twice == [b];
    assert [] + [Join(a, c)] == [Join(a, c)];
    assert [Join(a, c)] + [Join(d, e)] == [Join(a, c), Join(d, e)];
    calc {
      SweepOuter(m, lines, [], 0);
      SweepInner(m, lines, [], 0, a, 1);
      { assert lines[1] == b; }
      SweepInner(m, lines, [], 0, a, 2);
      { assert lines[2] == c; }
      SweepInner(m, once, [Join(a, c)], 0, a, 2);
      { assert once[2] == e; }
      SweepInner(m, once, [Join(a, c)], 0, a, 3);
      SweepOuter(m, once, [Join(a, c)], 1);
      SweepInner(m, once, [Join(a, c)], 1, d, 2);
      SweepInner(m, twice, [Join(a, c), Join(d, e)], 1, d, 2);
      SweepOuter(m, twice, [Join(a, c), Join(d, e)], 2);
    }
  }

  /**
   * Both tests are strict: raw angles exactly 8 degrees apart with midpoints exactly
   * 10 pixels apart (offset (6, 8)) merge; one more pixel of offset (6, 9) does not.
   */
  lemma MergeAtThresholds(a: Segment, b: Segment)
    requires a != b
    ensures var at := Measure(s => if s == a then 0.0 else MaxAngleGap, s => if s == a then Point(0, 0) else Point(6, 8));
      Merge(at, [a, b]) == [Join(a, b)]
    ensures var past := Measure(s => if s == a then 0.0 else MaxAngleGap, s => if s == a then Point(0, 0) else Point(6, 9));
      Merge(past, [a, b]) == [a, b]
  {
    var at := Measure(s => if s == a then 0.0 else MaxAngleGap, s => if s == a then Point(0, 0) else Point(6, 8));
    var past := Measure(s => if s == a then 0.0 else MaxAngleGap, s => if s == a then Point(0, 0) else Point(6, 9));
    assert Close(at, a, b);
    assert !Close(past, a, b);
    MergeTwo(at, a, b);
    MergeTwo(past, a, b);
  }
}
