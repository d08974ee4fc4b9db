/**
 * `get_point_direction`: where an anchor point lies relative to a box, as
 * a first-match cascade of strict comparisons.
 */
module Direction {
  import opened Wrappers

  datatype Direction = BottomRight | BottomLeft | TopRight | TopLeft | Right | Left

  /** The default `direction_padding`, in pixels. */
  const DefaultPadding: real := 20.0

  /**
   * The cascade: bottom-right, bottom-left, top-right, top-left, right,
   * left, else no direction. The split between left and right halves is the
   * box's vertical centre line; the padding enters the top-right and right
   * tests only.
   */
  function GetPointDirection(x: real, y: real, width: real, height: real,
                             pointX: real, pointY: real, padding: real): (r: Option<Direction>)
    ensures r == Some(BottomRight) ==> pointY > y + height && pointX > x + width / 2.0
    ensures r == Some(BottomLeft) ==> pointY > y + height && pointX < x + width / 2.0
    ensures r == Some(TopRight) ==> pointY < y - padding && pointX > x + width / 2.0
    ensures r == Some(TopLeft) ==> pointY < y && pointX < x + width / 2.0
    ensures r == Some(Right) ==> pointX > x + width && y - padding < pointY < y + height - padding
    ensures r == Some(Left) ==> pointX < x && y < pointY < y + height
  {
    var mid := (x + width) - width / 2.0;
    if pointX > mid && pointY > y + height then Some(BottomRight)
    else if pointX < mid && pointY > y + height then Some(BottomLeft)
    else if pointX > mid && pointY < y - padding then Some(TopRight)
    else if pointX < mid && pointY < y then Some(TopLeft)
    else if pointX > x + width && pointY > y - padding && pointY < (y + height) - padding then Some(Right)
    else if pointX < x && pointY > y && pointY < y + height then Some(Left)
    else None
  }

  /** One rule of the cascade: when `test` holds, the answer is `tag`. */
  datatype Rule = Rule(test: bool, tag: Direction)

  /** The rules in their priority order, written as a table. */
  function Rules(x: real, y: real, width: real, height: real,
                 pointX: real, pointY: real, padding: real): seq<Rule>
  {
    var mid := x + width / 2.0;
    var right, left := pointX > mid, pointX < mid;
    [ Rule(right && pointY > y + height, BottomRight),
      Rule(left && pointY > y + height, BottomLeft),
      Rule(right && pointY < y - padding, TopRight),
      Rule(left && pointY < y, TopLeft),
      Rule(pointX > x + width && y - padding < pointY < y + height - padding, Right),
      Rule(pointX < x && y < pointY < y + height, Left) ]
  }

  /** The tag of the first rule whose test holds. */
  function FirstMatch(rules: seq<Rule>): (r: Option<Direction>)
    ensures r.None? <==> forall i :: 0 <= i < |rules| ==> !rules[i].test
  {
    if rules == [] then None
    else if rules[0].test then Some(rules[0].tag)
    else FirstMatch(rules[1..])
  }

  /** The classifier is exactly the first match over the rule table, in its order. */
  lemma {:induction false} CascadeIsFirstMatch(x: real, y: real, width: real, height: real,
                                               pointX: real, pointY: real, padding: real)
    ensures GetPointDirection(x, y, width, height, pointX, pointY, padding)
         == FirstMatch(Rules(x, y, width, height, pointX, pointY, padding))
  {
    var rules := Rules(x, y, width, height, pointX, pointY, padding);
    assert (x + width) - width / 2.0 == x + width / 2.0;
    var r1 := rules[1..];
    var r2 := r1[1..];
    var r3 := r2[1..];
    var r4 := r3[1..];
    var r5 := r4[1..];
    assert FirstMatch(r5) == if rules[5].test then Some(Left) else None;
    assert FirstMatch(r4) == if rules[4].test then Some(Right) else FirstMatch(r5);
    assert FirstMatch(r3) == if rules[3].test then Some(TopLeft) else FirstMatch(r4);
    assert FirstMatch(r2) == if rules[2].test then Some(TopRight) else FirstMatch(r3);
    assert FirstMatch(r1) == if rules[1].test then Some(BottomLeft) else FirstMatch(r2);
  }

  /** An anchor inside the closed box, or on its border, gives no direction when the padding is not negative. */
  lemma InsideBoxUndetermined(x: real, y: real, width: real, height: real,
                              pointX: real, pointY: real, padding: real)
    requires padding >= 0.0
    requires x <= pointX <= x + width && y <= pointY <= y + height
    ensures GetPointDirection(x, y, width, height, pointX, pointY, padding).None?
  {
  }

  /**
   * The padding matters only to the top-right and right tests: for a box of
   * non-negative width, two paddings can give different answers only when
   * each answer is top-right, right or no direction.
   */
  lemma PaddingOnlyAffectsTopRightAndRight(x: real, y: real, width: real, height: real,
                                           pointX: real, pointY: real, padding1: real, padding2: real)
    requires width >= 0.0
    ensures
      var d1 := GetPointDirection(x, y, width, height, pointX, pointY, padding1);
      var d2 := GetPointDirection(x, y, width, height, pointX, pointY, padding2);
      d1 != d2 ==> d1 in {None, Some(TopRight), Some(Right)} && d2 in {None, Some(TopRight), Some(Right)}
  {
  }

  /** Below the box, mirroring the anchor across the centre line turns bottom-right into bottom-left and back. */
  lemma BottomMirror(x: real, y: real, width: real, height: real,
                     pointX: real, pointY: real, padding: real)
    ensures
      var mirrored := 2.0 * (x + width / 2.0) - pointX;
      GetPointDirection(x, y, width, height, pointX, pointY, padding) == Some(BottomRight)
      <==> GetPointDirection(x, y, width, height, mirrored, pointY, padding) == Some(BottomLeft)
  {
  }

  /** Right and left are answered only for anchors strictly beside the box and within its height. */
  lemma SideDirections(x: real, y: real, width: real, height: real,
                       pointX: real, pointY: real, padding: real)
    requires width >= 0.0
    ensures GetPointDirection(x, y, width, height, pointX, pointY, padding) == Some(Right)
            ==> pointX > x + width && y - padding < pointY < y + height - padding && pointY <= y + height
    ensures GetPointDirection(x, y, width, height, pointX, pointY, padding) == Some(Left)
            <==> pointX < x && y < pointY < y + height
  {
  }
}
