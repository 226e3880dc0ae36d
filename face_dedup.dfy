/**
 * The de-duplication of face detections in the webcam face counter
 * (Face-detector/face_detection_app.py): the boxes found by the two cascade
 * classifiers are merged, and a box is kept when it is roughly square and does
 * not overlap an already kept box by more than 30% of its own area. The number
 * of kept boxes is the count shown on screen.
 *
 * The thresholds 0.7, 1.4 and 0.3 are taken as exact rationals: `0.7 <= w / h <= 1.4`
 * becomes `7h <= 10w <= 14h` and `overlap > 0.3 * area` becomes `10 overlap > 3 area`.
 */
module FaceDedup {

  /** A detection `(x, y, w, h)`: top-left corner, width and height in pixels. */
  datatype Box = Box(x: int, y: int, w: int, h: int)

  function Max(a: int, b: int): int { if a >= b then a else b }
  function Min(a: int, b: int): int { if a <= b then a else b }

  /** The aspect-ratio test, `0.7 <= w / h <= 1.4`. */
  predicate AspectOk(b: Box) {
    7 * b.h <= 10 * b.w <= 14 * b.h
  }

  /** The area shared by two boxes; each side is clipped at 0 when they do not meet. */
  function Overlap(a: Box, b: Box): (r: int)
    ensures r >= 0
  {
    var ox := Max(0, Min(a.x + a.w, b.x + b.w) - Max(a.x, b.x));
    var oy := Max(0, Min(a.y + a.h, b.y + b.h) - Max(a.y, b.y));
    ox * oy
  }

  /** `overlap_area > 0.3 * face_area`, where the area is the candidate's own. */
  predicate Overlaps(candidate: Box, kept: Box) {
    10 * Overlap(candidate, kept) > 3 * (candidate.w * candidate.h)
  }

  /** No already kept box overlaps the candidate too much. */
  predicate Clear(kept: seq<Box>, candidate: Box) {
    forall k :: 0 <= k < |kept| ==> !Overlaps(candidate, kept[k])
  }

  /** One pass of the outer loop. */
  function Step(kept: seq<Box>, candidate: Box): seq<Box> {
    if AspectOk(candidate) && Clear(kept, candidate) then kept + [candidate] else kept
  }

  /** The boxes kept from `candidates`, taken in order. */
  function Dedup(candidates: seq<Box>): seq<Box>
    decreases |candidates|
  {
    if candidates == [] then []
    else Step(Dedup(candidates[..|candidates| - 1]), candidates[|candidates| - 1])
  }

  /**
   * The frame's detection step: primary detections, then the alternative ones,
   * filtered by the nested loop. Detections have positive height (the source
   * divides by it).
   */
  method FilterFaces(faces1: seq<Box>, faces2: seq<Box>) returns (faces: seq<Box>, faceCount: nat)
    requires forall b :: b in faces1 + faces2 ==> b.h > 0
    ensures faces == Dedup(faces1 + faces2)
    ensures faceCount == |faces|
  {
    var all := faces1 + faces2;
    faces := [];
    var i := 0;
    while i < |all|
      invariant 0 <= i <= |all|
      invariant faces == Dedup(all[..i])
    {
      var b := all[i];
      if AspectOk(b) {
        var overlap := false;
        var j := 0;
        while j < |faces|
          invariant 0 <= j <= |faces|
          invariant overlap ==> !Clear(faces, b)
          invariant !overlap ==> forall k :: 0 <= k < j ==> !Overlaps(b, faces[k])
        {
          var overlapArea := Overlap(b, faces[j]);
          if 10 * overlapArea > 3 * (b.w * b.h) {
            overlap := true;
            break;
          }
          j := j + 1;
        }
        if !overlap {
          faces := faces + [b];
        }
      }
      assert all[..i + 1][..i] == all[..i];
      i := i + 1;
    }
    assert all[..i] == all;
    faceCount := |faces|;
  }

  // ---------------------------------------------------------------------------
  // The thresholds
  // ---------------------------------------------------------------------------

  /** The integer aspect test is the ratio test on exact rationals. */
  lemma AspectExact(b: Box)
    requires b.h > 0
    ensures AspectOk(b) <==> 0.7 <= (b.w as real) / (b.h as real) <= 1.4
  {
    var r := (b.w as real) / (b.h as real);
    assert r * (b.h as real) == b.w as real;
  }

  /** The integer overlap test is the 30% test on exact rationals. */
  lemma OverlapExact(candidate: Box, kept: Box)
    ensures Overlaps(candidate, kept) <==>
      (Overlap(candidate, kept) as real) > 0.3 * ((candidate.w * candidate.h) as real)
  {
  }

  /** Overlap does not depend on which box is the candidate. */
  lemma OverlapSymmetric(a: Box, b: Box)
    ensures Overlap(a, b) == Overlap(b, a)
  {
  }

  lemma MulMono(a: int, b: int, c: int, d: int)
    requires 0 <= a <= c && 0 <= b <= d
    ensures a * b <= c * d
  {
    assert a * b <= c * b;
    assert c * b <= c * d;
  }

  /** The shared area is at most the candidate's own area, and a box covers all of itself. */
  lemma OverlapBounds(a: Box, b: Box)
    requires a.w >= 0 && a.h >= 0
    ensures Overlap(a, b) <= a.w * a.h
    ensures Overlap(a, a) == a.w * a.h
  {
    var ox := Max(0, Min(a.x + a.w, b.x + b.w) - Max(a.x, b.x));
    var oy := Max(0, Min(a.y + a.h, b.y + b.h) - Max(a.y, b.y));
    MulMono(ox, oy, a.w, a.h);
  }

  /**
   * The threshold is relative to the later box: a small box inside a large one
   * is dropped when it comes second but kept when it comes first.
   */
  lemma OrderMatters()
    ensures Dedup([Box(0, 0, 100, 100), Box(0, 0, 40, 40)]) == [Box(0, 0, 100, 100)]
    ensures Dedup([Box(0, 0, 40, 40), Box(0, 0, 100, 100)]) == [Box(0, 0, 40, 40), Box(0, 0, 100, 100)]
  {
    var big, small := Box(0, 0, 100, 100), Box(0, 0, 40, 40);
    assert [big, small][..1] == [big] && [big][..0] == [];
    assert [small, big][..1] == [small] && [small][..0] == [];
    assert Overlap(small, big) == 1600 && Overlap(big, small) == 1600;
  }

  // ---------------------------------------------------------------------------
  // What the kept list satisfies
  // ---------------------------------------------------------------------------

  /** `idx` picks the elements of `a` out of `b`, in increasing positions. */
  ghost predicate IndexMap(idx: seq<nat>, a: seq<Box>, b: seq<Box>) {
    && |idx| == |a|
    && (forall i, j :: 0 <= i < j < |idx| ==> idx[i] < idx[j])
    && (forall i :: 0 <= i < |idx| ==> idx[i] < |b| && a[i] == b[idx[i]])
  }

  ghost predicate SubsequenceOf(a: seq<Box>, b: seq<Box>) {
    exists idx :: IndexMap(idx, a, b)
  }

  lemma {:induction false} DedupIndices(c: seq<Box>) returns (idx: seq<nat>)
    ensures IndexMap(idx, Dedup(c), c)
    decreases |c|
  {
    if c == [] {
      idx := [];
    } else {
      var n := |c| - 1;
      var prev := DedupIndices(c[..n]);
      assert forall i :: 0 <= i < |prev| ==> c[..n][prev[i]] == c[prev[i]];
      if AspectOk(c[n]) && Clear(Dedup(c[..n]), c[n]) {
        idx := prev + [n];
      } else {
        idx := prev;
      }
    }
  }

  /** The kept boxes are candidates, in the order they were detected. */
  lemma DedupSubsequence(c: seq<Box>)
    ensures SubsequenceOf(Dedup(c), c)
  {
    var idx := DedupIndices(c);
  }

  /** Only roughly square boxes are kept, and no kept box overlaps an earlier one by more than 30% of its own area. */
  lemma {:induction false} DedupPairwise(c: seq<Box>)
    ensures forall k :: 0 <= k < |Dedup(c)| ==> AspectOk(Dedup(c)[k])
    ensures forall i, j :: 0 <= i < j < |Dedup(c)| ==> !Overlaps(Dedup(c)[j], Dedup(c)[i])
    decreases |c|
  {
    if c != [] {
      DedupPairwise(c[..|c| - 1]);
    }
  }

  /** The boxes kept from a prefix of the candidates are a prefix of the boxes kept from all of them. */
  lemma {:induction false} DedupPrefix(c: seq<Box>, n: nat)
    requires n <= |c|
    ensures Dedup(c[..n]) <= Dedup(c)
    decreases |c| - n
  {
    if n == |c| {
      assert c[..n] == c;
    } else {
      var p := c[..|c| - 1];
      DedupPrefix(p, n);
      assert p[..n] == c[..n];
    }
  }

  lemma {:induction false} NoneKept(c: seq<Box>)
    requires forall k :: 0 <= k < |c| ==> !AspectOk(c[k])
    ensures Dedup(c) == []
    decreases |c|
  {
    if c != [] {
      NoneKept(c[..|c| - 1]);
    }
  }

  /** The first roughly square candidate is always kept, and it is the first kept box. */
  lemma FirstAspectValidKept(c: seq<Box>, i: nat)
    requires i < |c| && AspectOk(c[i])
    requires forall k :: 0 <= k < i ==> !AspectOk(c[k])
    ensures |Dedup(c)| > 0 && Dedup(c)[0] == c[i]
  {
    NoneKept(c[..i]);
    assert c[..i + 1][..i] == c[..i];
    assert Dedup(c[..i + 1]) == [c[i]];
    DedupPrefix(c, i + 1);
  }

  /** No face is counted exactly when no candidate is roughly square. */
  lemma NoFaces(c: seq<Box>)
    ensures Dedup(c) == [] <==> forall k :: 0 <= k < |c| ==> !AspectOk(c[k])
  {
    if exists k :: 0 <= k < |c| && AspectOk(c[k]) {
      var i := FirstValid(c);
      FirstAspectValidKept(c, i);
    } else {
      NoneKept(c);
    }
  }

  lemma {:induction false} FirstValid(c: seq<Box>) returns (i: nat)
    requires exists k :: 0 <= k < |c| && AspectOk(c[k])
    ensures i < |c| && AspectOk(c[i]) && forall k :: 0 <= k < i ==> !AspectOk(c[k])
  {
    if AspectOk(c[0]) {
      i := 0;
    } else {
      var k :| 0 <= k < |c| && AspectOk(c[k]);
      assert AspectOk(c[1..][k - 1]);
      var j := FirstValid(c[1..]);
      i := j + 1;
    }
  }

  /** The same detection reported by both classifiers is counted once. */
  lemma DuplicateDropped(c: seq<Box>, b: Box)
    requires b in Dedup(c) && b.w > 0 && b.h > 0
    ensures Dedup(c + [b]) == Dedup(c)
  {
    OverlapBounds(b, b);
    var area := b.w * b.h;
    MulMono(1, 1, b.w, b.h);
    assert 10 * Overlap(b, b) > 3 * area;
    var k :| 0 <= k < |Dedup(c)| && Dedup(c)[k] == b;
    assert !Clear(Dedup(c), b);
    assert (c + [b])[..|c|] == c;
  }

  /** Running the filter again over the kept boxes keeps all of them. */
  lemma DedupIdempotent(c: seq<Box>)
    ensures Dedup(Dedup(c)) == Dedup(c)
  {
    DedupPairwise(c);
    KeepsClean(Dedup(c));
  }

  lemma {:induction false} KeepsClean(r: seq<Box>)
    requires forall k :: 0 <= k < |r| ==> AspectOk(r[k])
    requires forall i, j :: 0 <= i < j < |r| ==> !Overlaps(r[j], r[i])
    ensures Dedup(r) == r
    decreases |r|
  {
    if r != [] {
      var p := r[..|r| - 1];
      KeepsClean(p);
      assert Clear(p, r[|r| - 1]);
      assert p + [r[|r| - 1]] == r;
    }
  }
}
