/**
 * The floating properties panel of
 * frontend/src/components/PropertiesPanel.tsx: the edits it sends for the
 * selected node, and the state that lets the panel be dragged by its header.
 * Screen rectangles enter as their top-left corners; the element lookups
 * (`panelRef.current`, `offsetParent`) enter as optional values.
 */
module PropertiesPanel {
  import opened Wrappers
  import opened DiagramTypes

  /** `{ ...data, label: value }`. */
  function WithLabel(data: NodeData, value: string): (r: NodeData)
    ensures r.labelText == value
    ensures r.originalType == data.originalType && r.description == data.description
  {
    data.(labelText := value)
  }

  /** `{ ...data, description: value }`. */
  function WithDescription(data: NodeData, value: string): (r: NodeData)
    ensures r.description == value
    ensures r.labelText == data.labelText && r.originalType == data.originalType
  {
    data.(description := value)
  }

  /** The two edits touch different fields: they commute, and re-entering
      the current text changes nothing. */
  lemma EditsAreIndependent(data: NodeData, l: string, d: string)
    ensures WithDescription(WithLabel(data, l), d) == WithLabel(WithDescription(data, d), l)
    ensures WithLabel(data, data.labelText) == data
    ensures WithDescription(data, data.description) == data
  {
  }

  /** Where the grab point sits inside the panel. */
  function GrabOffset(client: Point, rect: Point): Point {
    client.Minus(rect)
  }

  /** The panel's position in its container's coordinates. */
  function RelativePosition(rect: Point, parentRect: Point): Point {
    rect.Minus(parentRect)
  }

  /** The position a mouse move puts the panel at. */
  function DragPosition(client: Point, parentOffset: Point, grab: Point): Point {
    client.Minus(parentOffset).Minus(grab)
  }

  /** No jump at drag start: a move to the point where the button went down
      leaves the panel where mouse-down placed it. */
  lemma NoJumpAtDragStart(client: Point, rect: Point, parentRect: Point)
    ensures DragPosition(client, parentRect, GrabOffset(client, rect)) == RelativePosition(rect, parentRect)
  {
  }

  /** A move by a delta moves the panel by the same delta. */
  lemma DragFollowsMouse(client: Point, delta: Point, parentOffset: Point, grab: Point)
    ensures DragPosition(client.Plus(delta), parentOffset, grab) == DragPosition(client, parentOffset, grab).Plus(delta)
  {
  }

  class PanelDrag {
    var position: Option<Point>    // None: the default place, top right
    var isDragging: bool
    var dragStartOffset: Point
    var parentOffset: Point

    /** The grab point of the panel is under the mouse at `client`. */
    predicate GrabHeld(client: Point)
      reads this
    {
      position.Some? && parentOffset.Plus(position.value).Plus(dragStartOffset) == client
    }

    constructor ()
      ensures position == None && !isDragging
      ensures dragStartOffset == Point(0, 0) && parentOffset == Point(0, 0)
    {
      position := None;
      isDragging := false;
      dragStartOffset := Point(0, 0);
      parentOffset := Point(0, 0);
    }

    /** `handleMouseDown`: `panel` is the panel's top-left on screen (absent
        before the element is mounted), `parent` its offset parent's (absent
        when there is none, then the origin is used). */
    method MouseDown(panel: Option<Point>, parent: Option<Point>, client: Point)
      modifies this
      ensures panel.None? ==> unchanged(this)
      ensures panel.Some? ==>
                var pRect := parent.GetOr(Point(0, 0));
                && parentOffset == pRect
                && dragStartOffset == GrabOffset(client, panel.value)
                && position == Some(RelativePosition(panel.value, pRect))
                && isDragging
      ensures panel.Some? ==> parentOffset.Plus(position.value) == panel.value && GrabHeld(client)
    {
      if panel.Some? {
        var rect := panel.value;
        var pRect := parent.GetOr(Point(0, 0));
        parentOffset := pRect;
        dragStartOffset := GrabOffset(client, rect);
        position := Some(RelativePosition(rect, pRect));
        isDragging := true;
      }
    }

    /** `handleMouseMove`: ignored unless dragging; otherwise the panel
        follows the mouse keeping the grab point under it. */
    method MouseMove(client: Point)
      modifies this
      ensures !old(isDragging) ==> unchanged(this)
      ensures old(isDragging) ==> position == Some(DragPosition(client, parentOffset, dragStartOffset))
      ensures old(isDragging) ==> GrabHeld(client)
      ensures isDragging == old(isDragging)
      ensures dragStartOffset == old(dragStartOffset) && parentOffset == old(parentOffset)
    {
      if isDragging {
        position := Some(DragPosition(client, parentOffset, dragStartOffset));
      }
    }

    /** `handleMouseUp`: the drag ends where the panel is. */
    method MouseUp()
      modifies this
      ensures !isDragging
      ensures position == old(position)
      ensures dragStartOffset == old(dragStartOffset) && parentOffset == old(parentOffset)
    {
      isDragging := false;
    }
  }
}
