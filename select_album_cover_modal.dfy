/**
 * app/components/SelectAlbumCoverModal.tsx: choosing an album's cover file and
 * dragging the focal point, then reporting both to `onSelect`.
 *
 * Coordinates are whole numbers here. The cursor's percentage of the image box,
 * `(newX / maxX) * 100`, is floating point and arrives as a parameter.
 */
module SelectAlbumCoverModal {
  import opened Common
  import opened ClientModel

  /** `Math.max(0, Math.min(100, p))`. */
  function ClampPercent(p: int): (r: int)
    ensures 0 <= r <= 100
    ensures 0 <= p <= 100 ==> r == p
    ensures p < 0 ==> r == 0
    ensures p > 100 ==> r == 100
  {
    if p < 0 then 0 else if p > 100 then 100 else p
  }

  /** `` `${x}% ${y}%` ``, the CSS `object-position` handed to `onSelect`. */
  function PositionString(x: int, y: int): (s: string)
    ensures Split(s, ' ') == [IntToString(x) + "%", IntToString(y) + "%"]
  {
    var a := IntToString(x) + "%";
    var b := IntToString(y) + "%";
    NoSpaceInInt(x);
    NoSpaceInInt(y);
    SplitCons(a, ' ', b);
    assert IndexOf(b, ' ') == -1;
    a + [' '] + b
  }

  /** A decimal number has no space in it. */
  lemma NoSpaceInInt(i: int)
    ensures ' ' !in IntToString(i)
  {
    var d := NatToString(if i >= 0 then i else -i);
    forall k | 0 <= k < |d| ensures d[k] != ' ' {
      assert IsDigit(d[k]);
    }
  }

  /** The callbacks the modal makes, in order. */
  datatype Event = OnSelect(fileId: int, position: string) | OnClose

  class CoverPicker {
    var selectedFile: Option<ClientFile>
    var x: int
    var y: int
    var isDragging: bool
    var startX: int
    var startY: int
    var events: seq<Event>

    /** The focal point stays inside the image box. */
    ghost predicate Valid()
      reads this
    {
      0 <= x <= 100 && 0 <= y <= 100
    }

    /** Nothing selected, the focal point in the centre, not dragging. */
    constructor()
      ensures Valid()
      ensures selectedFile.None? && x == 50 && y == 50 && !isDragging && startX == 0 && startY == 0
      ensures events == []
    {
      selectedFile := None;
      x, y := 50, 50;
      isDragging := false;
      startX, startY := 0, 0;
      events := [];
    }

    /** Clicking a thumbnail selects that file. */
    method SelectFile(f: ClientFile)
      modifies this
      ensures selectedFile == Some(f)
      ensures x == old(x) && y == old(y) && isDragging == old(isDragging)
      ensures startX == old(startX) && startY == old(startY) && events == old(events)
    {
      selectedFile := Some(f);
    }

    /** `handleMouseDown`: dragging starts, remembering the cursor's offset from the point. */
    method HandleMouseDown(clientX: int, clientY: int)
      modifies this
      ensures isDragging && startX == clientX - old(x) && startY == clientY - old(y)
      ensures x == old(x) && y == old(y) && selectedFile == old(selectedFile) && events == old(events)
    {
      isDragging := true;
      startX, startY := clientX - x, clientY - y;
    }

    /**
     * `handleMouseMove`, given whether the image is mounted and the cursor's
     * percentages of the image box: outside a drag nothing changes, during one the
     * point follows the cursor, clamped to the box.
     */
    method HandleMouseMove(hasImage: bool, percentX: int, percentY: int)
      requires Valid()
      modifies this
      ensures Valid()
      ensures !old(isDragging) || !hasImage ==> x == old(x) && y == old(y)
      ensures old(isDragging) && hasImage ==> x == ClampPercent(percentX) && y == ClampPercent(percentY)
      ensures isDragging == old(isDragging) && startX == old(startX) && startY == old(startY)
      ensures selectedFile == old(selectedFile) && events == old(events)
    {
      if !isDragging || !hasImage {
        return;
      }
      x := ClampPercent(percentX);
      y := ClampPercent(percentY);
    }

    /** `handleMouseUp`: the drag ends and the point stays. */
    method HandleMouseUp()
      modifies this
      ensures !isDragging
      ensures x == old(x) && y == old(y) && startX == old(startX) && startY == old(startY)
      ensures selectedFile == old(selectedFile) && events == old(events)
    {
      isDragging := false;
    }

    /** `handleSelect`: with a file chosen, report it with the position, then close. */
    method HandleSelect()
      modifies this
      ensures old(selectedFile).None? ==> events == old(events)
      ensures old(selectedFile).Some? ==>
        events == old(events) + [OnSelect(old(selectedFile).value.id, PositionString(old(x), old(y))), OnClose]
      ensures selectedFile == old(selectedFile) && x == old(x) && y == old(y)
      ensures isDragging == old(isDragging) && startX == old(startX) && startY == old(startY)
    {
      if selectedFile.Some? {
        events := events + [OnSelect(selectedFile.value.id, PositionString(x, y)), OnClose];
      }
    }
  }

  /** The reported position of a point inside the box is two decimal percentages. */
  lemma {:induction false} PositionOfValidPoint(x: int, y: int)
    requires 0 <= x <= 100 && 0 <= y <= 100
    ensures var s := PositionString(x, y);
      s == NatToString(x) + "% " + NatToString(y) + "%" &&
      DecimalValue(NatToString(x)) == x && DecimalValue(NatToString(y)) == y
  {
    DecimalRoundTrip(x);
    DecimalRoundTrip(y);
  }
}
