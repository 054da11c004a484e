/**
  Segmenting a stream whose points are marked: some open a segment, some end the one that is open. A
  segmentation is described by what it must look like, and proved to exist and to be unique.
*/
module Segmentation {

  /** How the detector sees one point: moving, or stopped long enough to end a trip. */
  datatype Mark = Mark(moving: bool, longStop: bool)

  /** The points lo .. hi - 1. */
  datatype Segment = Segment(lo: nat, hi: nat)

  ghost predicate Covered(segs: seq<Segment>, k: nat) {
    exists i :: 0 <= i < |segs| && segs[i].lo <= k < segs[i].hi
  }

  /** A non-empty stretch of the stream that starts at a moving point. */
  ghost predicate StartsMoving(marks: seq<Mark>, from: nat, s: Segment) {
    from <= s.lo < s.hi <= |marks| && marks[s.lo].moving
  }

  ghost predicate NoLongStopInside(marks: seq<Mark>, s: Segment) {
    forall k | s.lo < k < s.hi && k < |marks| :: !marks[k].longStop
  }

  ghost predicate EndsAtLongStop(marks: seq<Mark>, s: Segment) {
    s.hi < |marks| ==> marks[s.hi].longStop
  }

  ghost predicate Ordered(segs: seq<Segment>) {
    forall i, j | 0 <= i < j < |segs| :: segs[i].hi <= segs[j].lo
  }

  ghost predicate CoversMoving(marks: seq<Mark>, from: nat, segs: seq<Segment>) {
    forall k {:trigger Covered(segs, k)} | from <= k < |marks| && marks[k].moving :: Covered(segs, k)
  }

  /** The candidate trips of the stream from point `from` on. */
  ghost predicate IsSegmentation(marks: seq<Mark>, from: nat, segs: seq<Segment>) {
    && (forall i | 0 <= i < |segs| ::
          StartsMoving(marks, from, segs[i]) && NoLongStopInside(marks, segs[i]) && EndsAtLongStop(marks, segs[i]))
    && Ordered(segs)
    && CoversMoving(marks, from, segs)
  }

  function NextMoving(marks: seq<Mark>, k: nat): (m: nat)
    requires k <= |marks|
    ensures k <= m <= |marks|
    ensures m < |marks| ==> marks[m].moving
    ensures forall i | k <= i < m :: !marks[i].moving
    decreases |marks| - k
  {
    if k == |marks| || marks[k].moving then k else NextMoving(marks, k + 1)
  }

  function NextLongStop(marks: seq<Mark>, k: nat): (e: nat)
    requires k <= |marks|
    ensures k <= e <= |marks|
    ensures e < |marks| ==> marks[e].longStop
    ensures forall i | k <= i < e :: !marks[i].longStop
    decreases |marks| - k
  {
    if k == |marks| || marks[k].longStop then k else NextLongStop(marks, k + 1)
  }

  /** The segmentation, computed. */
  function Segments(marks: seq<Mark>, from: nat): seq<Segment>
    requires from <= |marks|
    decreases |marks| - from
  {
    var m := NextMoving(marks, from);
    if m == |marks| then []
    else
      var e := NextLongStop(marks, m + 1);
      [Segment(m, e)] + Segments(marks, e)
  }

  lemma SegmentsSkip(marks: seq<Mark>, i: nat)
    requires i < |marks| && !marks[i].moving
    ensures Segments(marks, i) == Segments(marks, i + 1)
  {
    assert NextMoving(marks, i) == NextMoving(marks, i + 1);
  }

  lemma SegmentsOpen(marks: seq<Mark>, m: nat)
    requires m < |marks| && marks[m].moving
    ensures var e := NextLongStop(marks, m + 1); Segments(marks, m) == [Segment(m, e)] + Segments(marks, e)
  {
    assert NextMoving(marks, m) == m;
    hide NextLongStop;
  }

  lemma CoveredCons(s: Segment, rest: seq<Segment>, k: nat)
    ensures Covered([s] + rest, k) <==> s.lo <= k < s.hi || Covered(rest, k)
  {
    var segs := [s] + rest;
    if s.lo <= k < s.hi {
      assert segs[0] == s;
    }
    if Covered(rest, k) {
      var i :| 0 <= i < |rest| && rest[i].lo <= k < rest[i].hi;
      assert segs[i + 1] == rest[i];
    }
  }

  /** A segment at the first moving point up to the next long stop, then a segmentation from there. */
  lemma SegmentationCons(marks: seq<Mark>, from: nat, s: Segment, rest: seq<Segment>)
    requires from <= |marks|
    requires s.lo == NextMoving(marks, from) < |marks| && s.hi == NextLongStop(marks, s.lo + 1)
    ensures IsSegmentation(marks, from, [s] + rest) <==> IsSegmentation(marks, s.hi, rest)
  {
    var segs := [s] + rest;
    assert segs[0] == s && segs[1..] == rest;
    forall k: nat ensures Covered(segs, k) <==> s.lo <= k < s.hi || Covered(rest, k) {
      CoveredCons(s, rest, k);
    }
    if IsSegmentation(marks, from, segs) {
      assert forall i | 0 <= i < |rest| :: rest[i] == segs[i + 1];
    }
  }

  lemma FirstSegment(marks: seq<Mark>, from: nat, segs: seq<Segment>)
    requires from <= |marks| && IsSegmentation(marks, from, segs)
    ensures segs == [] ==> NextMoving(marks, from) == |marks|
    ensures segs != [] ==>
              && segs[0].lo == NextMoving(marks, from) < |marks|
              && segs[0].hi == NextLongStop(marks, segs[0].lo + 1)
  {
    var m := NextMoving(marks, from);
    if m < |marks| {
      assert Covered(segs, m);
    }
    if segs != [] {
      var s := segs[0];
      assert StartsMoving(marks, from, s) && NoLongStopInside(marks, s) && EndsAtLongStop(marks, s);
    }
  }

  lemma {:induction false} SegmentsAreSegmentation(marks: seq<Mark>, from: nat)
    requires from <= |marks|
    ensures IsSegmentation(marks, from, Segments(marks, from))
    decreases |marks| - from
  {
    var m := NextMoving(marks, from);
    if m < |marks| {
      var e := NextLongStop(marks, m + 1);
      var rest := Segments(marks, e);
      assert Segments(marks, from) == [Segment(m, e)] + rest;
      SegmentsAreSegmentation(marks, e);
      SegmentationCons(marks, from, Segment(m, e), rest);
    }
  }

  lemma {:induction false} SegmentationIsSegments(marks: seq<Mark>, from: nat, segs: seq<Segment>)
    requires from <= |marks| && IsSegmentation(marks, from, segs)
    ensures segs == Segments(marks, from)
    decreases |segs|
  {
    FirstSegment(marks, from, segs);
    if segs != [] {
      var s, rest := segs[0], segs[1..];
      assert segs == [s] + rest;
      assert Segments(marks, from) == [s] + Segments(marks, s.hi);
      SegmentationCons(marks, from, s, rest);
      SegmentationIsSegments(marks, s.hi, rest);
    }
  }

  /** A segmentation exists, and there is only one. */
  lemma SegmentationUnique(marks: seq<Mark>, segs: seq<Segment>)
    ensures IsSegmentation(marks, 0, segs) <==> segs == Segments(marks, 0)
  {
    SegmentsAreSegmentation(marks, 0);
    if IsSegmentation(marks, 0, segs) {
      SegmentationIsSegments(marks, 0, segs);
    }
  }
}
