/**
 * app/components/ImageDetailModal.tsx: the rotation buttons and the file-type
 * label of the full-screen viewer. Its `formatFileSize` is the same as the one in
 * FileList and is `ClientModel.FormatFileSize`.
 */
module ImageDetailModal {
  import opened Common

  /** JavaScript's `%` for a positive divisor: the remainder takes the sign of the dividend. */
  function JsRem(a: int, b: int): (r: int)
    requires b > 0
    ensures a >= 0 ==> 0 <= r < b
    ensures a < 0 ==> -b < r <= 0
  {
    if a >= 0 then a % b else -((-a) % b)
  }

  /** Within two full turns either way, `% 360` takes off at most one turn. */
  lemma {:induction false} JsRemTurn(a: int)
    requires -720 < a < 720
    ensures JsRem(a, 360) == if a <= -360 then a + 360 else if a >= 360 then a - 360 else a
  {
    if a >= 360 {
      assert a % 360 == a - 360;
    } else if a >= 0 {
      assert a % 360 == a;
    } else if a > -360 {
      assert (-a) % 360 == -a;
    } else {
      assert (-a) % 360 == -a - 360;
    }
  }

  /** The angles the viewer can be in: a multiple of 90 strictly between -360 and 360. */
  predicate Reachable(r: int) {
    -360 < r < 360 && r % 90 == 0
  }

  /** `(prev - 90) % 360`: a quarter turn left, wrapping a full turn back to 0. */
  function RotateLeft(r: int): (r': int)
    requires Reachable(r)
    ensures Reachable(r')
    ensures r' == if r == -270 then 0 else r - 90
  {
    JsRemTurn(r - 90);
    JsRem(r - 90, 360)
  }

  /** `(prev + 90) % 360`: a quarter turn right, wrapping a full turn back to 0. */
  function RotateRight(r: int): (r': int)
    requires Reachable(r)
    ensures Reachable(r')
    ensures r' == if r == 270 then 0 else r + 90
  {
    JsRemTurn(r + 90);
    JsRem(r + 90, 360)
  }

  /** Left then right, or right then left, is the same angle modulo a full turn. */
  lemma RotationsCancel(r: int)
    requires Reachable(r)
    ensures (RotateRight(RotateLeft(r)) - r) % 360 == 0
    ensures (RotateLeft(RotateRight(r)) - r) % 360 == 0
  {
    if r == -270 {
      assert RotateRight(RotateLeft(r)) - r == 360;
      assert RotateLeft(RotateRight(r)) - r == 0;
    } else if r == 270 {
      assert RotateRight(RotateLeft(r)) - r == 0;
      assert RotateLeft(RotateRight(r)) - r == -360;
    } else {
      assert RotateRight(RotateLeft(r)) == r;
      assert RotateLeft(RotateRight(r)) == r;
    }
  }

  /** ... but not always the same number: from -270, left gives 0 and right then gives 90. */
  lemma RotationsNeedNotReturn()
    ensures RotateRight(RotateLeft(-270)) == 90
  {
  }

  /** The viewer's rotation state. */
  class Rotation {
    var angle: int

    ghost predicate Valid()
      reads this
    {
      Reachable(angle)
    }

    /** The viewer opens unrotated. */
    constructor()
      ensures Valid() && angle == 0
    {
      angle := 0;
    }

    /** `handleRotateLeft`. */
    method HandleRotateLeft()
      requires Valid()
      modifies this
      ensures Valid() && angle == RotateLeft(old(angle))
    {
      JsRemTurn(angle - 90);
      angle := JsRem(angle - 90, 360);
    }

    /** `handleRotateRight`. */
    method HandleRotateRight()
      requires Valid()
      modifies this
      ensures Valid() && angle == RotateRight(old(angle))
    {
      JsRemTurn(angle + 90);
      angle := JsRem(angle + 90, 360);
    }
  }

  /**
   * `fileType.split('/')[1].toUpperCase()`: the upper-cased text between the first
   * and second '/'. Without a '/', element 1 is `undefined` and the call throws;
   * that is `None`.
   */
  function TypeLabel(fileType: string): (r: Option<string>)
    ensures r.None? <==> '/' !in fileType
    ensures r.Some? ==> |Split(fileType, '/')| >= 2 && r.value == Upper(Split(fileType, '/')[1])
  {
    var parts := Split(fileType, '/');
    var i := IndexOf(fileType, '/');
    assert i >= 0 <==> '/' in fileType;
    if |parts| >= 2 then Some(Upper(parts[1])) else None
  }

  /** A MIME type "major/minor" is labelled with its upper-cased minor part. */
  lemma {:induction false} TypeLabelOfMime(major: string, minor: string)
    requires '/' !in major && '/' !in minor
    ensures TypeLabel(major + "/" + minor) == Some(Upper(minor))
  {
    SplitCons(major, '/', minor);
    assert major + "/" + minor == major + ['/'] + minor;
    assert IndexOf(minor, '/') == -1;
  }
}
