/**
 * Centre-face selection: among the boxes a face detector reports for one
 * image, pick the one whose centre lies nearest the centre of the image
 * (app.py, distance2center and Filter2centerBox).
 *
 * The source compares Euclidean distances, that is square roots of sums of
 * squares. The square root is strictly increasing on non-negative values, so
 * every `<` between two distances has the same outcome as the `<` between
 * their squares (lemma SquareRootPreservesOrder); the model therefore
 * compares squared distances and stays in integer arithmetic.
 */
module Geometry {

  /** A detector box in pixel coordinates: corners (x1, y1) and (x2, y2). */
  datatype Box = Box(x1: int, y1: int, x2: int, y2: int)

  datatype Point = Point(x: int, y: int)

  /** Halving with truncation toward zero, as Python's int(n / 2) and
      numpy's astype(int) on n / 2 do; Dafny's own `/` rounds down instead. */
  function Half(n: int): (r: int)
    ensures n >= 0 ==> 0 <= n - 2 * r <= 1
    ensures n < 0 ==> -1 <= n - 2 * r <= 0
  {
    if n >= 0 then n / 2 else -((-n) / 2)
  }

  /** The centre of an image: x from its width (shape[1]), y from its height (shape[0]). */
  function ImageCentre(width: nat, height: nat): Point
  {
    Point(Half(width), Half(height))
  }

  /** The truncated midpoint of a box. */
  function BoxCentre(b: Box): Point
  {
    Point(Half(b.x1 + b.x2), Half(b.y1 + b.y2))
  }

  function SqDist(p: Point, q: Point): nat
  {
    (p.x - q.x) * (p.x - q.x) + (p.y - q.y) * (p.y - q.y)
  }

  /** Squared distance from a box's centre to the image centre. */
  function CentreDist(b: Box, width: nat, height: nat): nat
  {
    SqDist(BoxCentre(b), ImageCentre(width, height))
  }

  /** Index i is the selection the source makes: a box at minimal distance,
      with every earlier box strictly farther away (the first minimum wins). */
  predicate IsCentreChoice(boxes: seq<Box>, width: nat, height: nat, i: int)
  {
    && 0 <= i < |boxes|
    && (forall j :: 0 <= j < |boxes| ==>
          CentreDist(boxes[i], width, height) <= CentreDist(boxes[j], width, height))
    && (forall j :: 0 <= j < i ==>
          CentreDist(boxes[i], width, height) < CentreDist(boxes[j], width, height))
  }

  /** The selection as a function of the box list, scanning it from the front. */
  function CentreIndex(boxes: seq<Box>, width: nat, height: nat): (i: nat)
    requires |boxes| > 0
    ensures IsCentreChoice(boxes, width, height, i)
    decreases |boxes|
  {
    if |boxes| == 1 then 0
    else
      var init := boxes[..|boxes| - 1];
      var j := CentreIndex(init, width, height);
      assert init[j] == boxes[j];
      if CentreDist(boxes[|boxes| - 1], width, height) < CentreDist(boxes[j], width, height)
      then |boxes| - 1
      else j
  }

  /** The selection criterion leaves no choice: at most one index meets it. */
  lemma CentreChoiceUnique(boxes: seq<Box>, width: nat, height: nat, i: int, k: int)
    requires IsCentreChoice(boxes, width, height, i)
    requires IsCentreChoice(boxes, width, height, k)
    ensures i == k
  {
    // Each is at most the other, so neither can lie strictly before the other.
    assert CentreDist(boxes[i], width, height) == CentreDist(boxes[k], width, height);
  }

  /** The running minimum of the source: infinite before the first box is seen. */
  datatype MinDistance = Infinity | Finite(d: nat)

  predicate Below(d: nat, m: MinDistance)
  {
    m.Infinity? || d < m.d
  }

  /** The source's loop: keep the index of the first box whose distance is
      strictly below the running minimum, and return that box as a
      one-element list. The caller guarantees at least one box. */
  method Filter2CenterBox(boxes: seq<Box>, width: nat, height: nat)
    returns (minIdx: int, selected: seq<Box>)
    requires |boxes| > 0
    ensures IsCentreChoice(boxes, width, height, minIdx)
    ensures minIdx == CentreIndex(boxes, width, height)
    ensures selected == [boxes[minIdx]]
    ensures |selected| == 1 && selected[0] in boxes
  {
    var minDistance := Infinity;
    minIdx := -1;
    var i := 0;
    while i < |boxes|
      invariant 0 <= i <= |boxes|
      invariant i == 0 ==> minIdx == -1 && minDistance == Infinity
      invariant i > 0 ==> IsCentreChoice(boxes[..i], width, height, minIdx)
      invariant i > 0 ==> minDistance == Finite(CentreDist(boxes[minIdx], width, height))
    {
      var distance := CentreDist(boxes[i], width, height);
      if Below(distance, minDistance) {
        minIdx := i;
        minDistance := Finite(distance);
      }
      i := i + 1;
    }
    assert boxes[..i] == boxes;
    CentreChoiceUnique(boxes, width, height, minIdx, CentreIndex(boxes, width, height));
    selected := [boxes[minIdx]];
  }

  /** Comparing distances through their squares is sound: for non-negative
      roots ra of a and rb of b, ra < rb exactly when a < b. */
  lemma SquareRootPreservesOrder(a: real, b: real, ra: real, rb: real)
    requires 0.0 <= ra && 0.0 <= rb
    requires ra * ra == a && rb * rb == b
    ensures ra < rb <==> a < b
  {
    assert b - a == (rb - ra) * (rb + ra);
    if ra < rb {
      assert 0.0 < rb + ra;
      assert 0.0 < (rb - ra) * (rb + ra);
    } else {
      assert 0.0 <= ra - rb && 0.0 <= rb + ra;
      assert 0.0 <= (ra - rb) * (rb + ra);
    }
  }
}
