/**
 * The node-list transforms of frontend/src/components/ArchitectureCanvas.tsx:
 * placing a dropped palette item (with the point-in-group hit test), the
 * re-parenting on drag-stop, detaching a child back to absolute coordinates,
 * replacing a node's data, and the grow-only resize of a group that receives
 * a child. Each is a function from the current node list (and the event's
 * inputs) to the next node list, as the `setNodes` updaters are.
 *
 * React Flow's hit test (`getIntersectingNodes`) and pan/zoom transform
 * (`screenToFlowPosition`) are not modelled: their results are inputs.
 */
module Containment {
  import opened Wrappers
  import opened DiagramTypes
  import opened StrUtil

  /** Palette labels that create group nodes. */
  const GroupTypes: seq<string> := ["VPC", "VPC (Network)", "Availability Zone", "Subnet", "Security Group"]

  /** Space kept between a child's far edge and its group's border. */
  const Padding: int := 20
  /** The size assumed for a child that has not been measured. */
  const DefaultChildWidth: int := 150
  const DefaultChildHeight: int := 40
  /** The size of a new group, and the size assumed for an unsized one. */
  const DefaultGroupWidth: int := 300
  const DefaultGroupHeight: int := 200

  /** A dropped label makes a group exactly when it is one of `GroupTypes`. */
  function KindForLabel(labelText: string): (kind: string)
    ensures kind == "group" <==> labelText in GroupTypes
    ensures kind == "group" || kind == "custom"
  {
    if labelText in GroupTypes then "group" else "custom"
  }

  // ---------------------------------------------------------------------
  // Node ids from the drop counter
  // ---------------------------------------------------------------------

  /** The id `getId` hands out when the counter stands at `k`. */
  function NewNodeId(k: nat): string {
    "dndnode_" + NatToString(k)
  }

  /** The counter value an id of the form `dndnode_<digits>` carries. */
  function ParseNewNodeId(id: string): Option<nat> {
    if |id| > 8 && id[..8] == "dndnode_" && AllDigits(id[8..]) then Some(DigitsValue(id[8..])) else None
  }

  lemma ParseNewNodeIdOf(k: nat)
    ensures ParseNewNodeId(NewNodeId(k)) == Some(k)
  {
    var id := NewNodeId(k);
    assert id[..8] == "dndnode_" && id[8..] == NatToString(k);
    DigitsValueOfNatToString(k);
  }

  /** Distinct counter values give distinct ids. */
  lemma NewNodeIdInjective(j: nat, k: nat)
    requires j != k
    ensures NewNodeId(j) != NewNodeId(k)
  {
    ParseNewNodeIdOf(j);
    ParseNewNodeIdOf(k);
  }

  predicate IdBelow(id: string, k: nat) {
    match ParseNewNodeId(id)
    case Some(m) => m < k
    case None => true
  }

  /** Every node id of the counter's form carries a value below `k`. */
  predicate CounterAhead(nds: seq<Node>, k: nat) {
    forall i :: 0 <= i < |nds| ==> IdBelow(nds[i].id, k)
  }

  /** While the counter is ahead of the list, the next id is not in use. */
  lemma CounterAheadFresh(nds: seq<Node>, k: nat)
    requires CounterAhead(nds, k)
    ensures forall i :: 0 <= i < |nds| ==> nds[i].id != NewNodeId(k)
  {
    ParseNewNodeIdOf(k);
  }

  // ---------------------------------------------------------------------
  // Sizes
  // ---------------------------------------------------------------------

  /** `n.width || Number(n.style?.width) || 300`. */
  function CurrentWidth(n: Node): int {
    OrElse(n.width, OrElse(n.style.width, DefaultGroupWidth))
  }

  /** `n.height || Number(n.style?.height) || 200`. */
  function CurrentHeight(n: Node): int {
    OrElse(n.height, OrElse(n.style.height, DefaultGroupHeight))
  }

  /** The grow-only rule: a dimension changes only when the required size is
      strictly larger, and then becomes exactly the required size. */
  function Grow(current: int, required: int): (r: int)
    ensures r >= current && r >= required
    ensures r == current <==> required <= current
    ensures r != current ==> r == required
  {
    if required > current then required else current
  }

  /** Sets the measured size and the style size together. */
  function Resize(n: Node, w: int, h: int): Node {
    n.(width := Some(w), height := Some(h), style := n.style.(width := Some(w), height := Some(h)))
  }

  // ---------------------------------------------------------------------
  // Drop of a palette item (onDrop)
  // ---------------------------------------------------------------------

  /** The size the drop hit test reads, `g.width ?? Number(g.style?.width) ?? 300`:
      `Number` never yields a nullish value, so the 300 is never reached and a
      group without either size compares as NaN, here `None`. */
  function HitWidth(g: Node): (r: Option<int>)
    ensures r.None? <==> g.width.None? && g.style.width.None?
    ensures g.width.Some? ==> r == g.width
    ensures g.width.None? ==> r == g.style.width
  {
    if g.width.Some? then g.width else g.style.width
  }

  function HitHeight(g: Node): (r: Option<int>)
    ensures r.None? <==> g.height.None? && g.style.height.None?
    ensures g.height.Some? ==> r == g.height
    ensures g.height.None? ==> r == g.style.height
  {
    if g.height.Some? then g.height else g.style.height
  }

  /** The point lies in the group's rectangle, borders included. */
  predicate ContainsPoint(g: Node, p: Point): (r: bool)
    ensures r ==> HitWidth(g).Some? && HitHeight(g).Some?
  {
    var o := AbsolutePosition(g);
    && HitWidth(g).Some? && HitHeight(g).Some?
    && o.x <= p.x <= o.x + HitWidth(g).value
    && o.y <= p.y <= o.y + HitHeight(g).value
  }

  /** The hit test includes the borders: a sized group contains its own
      top-left and bottom-right corners. */
  lemma ContainsCorners(g: Node)
    requires HitWidth(g).Some? && HitHeight(g).Some?
    requires HitWidth(g).value >= 0 && HitHeight(g).value >= 0
    ensures ContainsPoint(g, AbsolutePosition(g))
    ensures ContainsPoint(g, AbsolutePosition(g).Plus(Point(HitWidth(g).value, HitHeight(g).value)))
  {
  }

  /** The predicate of the drop's `find`: a group that contains the point,
      and never any when the dropped node is itself a group. */
  predicate IsDropTarget(kind: string, p: Point, g: Node) {
    g.kind == "group" && kind != "group" && ContainsPoint(g, p)
  }

  /** The group a drop lands in: the last listed one that contains the point. */
  function DropTarget(nds: seq<Node>, kind: string, p: Point): (r: Option<nat>)
    ensures r.Some? ==> r.value < |nds| && IsDropTarget(kind, p, nds[r.value])
    ensures r.Some? ==> forall j :: r.value < j < |nds| ==> !IsDropTarget(kind, p, nds[j])
    ensures r.None? ==> forall j :: 0 <= j < |nds| ==> !IsDropTarget(kind, p, nds[j])
  {
    LastIndexWhere(nds, g => IsDropTarget(kind, p, g))
  }

  /** The node a drop creates. */
  function CreatedNode(id: string, labelText: string, kind: string, pos: Point, parent: Option<string>): (r: Node)
    ensures r.id == id && r.kind == kind && r.position == pos && r.parentNode == parent
    ensures r.width.None? && r.height.None? && r.data == NodeData(labelText, labelText, "")
    ensures r.extent.Some? <==> IsTruthy(parent)
    ensures kind == "group" ==> r.style == Style(Some(DefaultGroupWidth), Some(DefaultGroupHeight), Some(-1))
    ensures kind != "group" ==> r.style.width.None? && r.style.height.None? && r.style.zIndex == Some(10)
  {
    Node(id, kind, pos, None, None, None,
         if kind == "group" then Style(Some(DefaultGroupWidth), Some(DefaultGroupHeight), Some(-1))
         else Style(None, None, Some(10)),
         parent,
         if IsTruthy(parent) then Some("parent") else None,
         NodeData(labelText, labelText, ""))
  }

  /** Applies one size to every node carrying `id` (the drop's `groupUpdate`). */
  function ResizeAll(nds: seq<Node>, id: string, w: int, h: int): (r: seq<Node>)
    ensures |r| == |nds|
    ensures forall i :: 0 <= i < |nds| ==> r[i] == if nds[i].id == id then Resize(nds[i], w, h) else nds[i]
  {
    seq(|nds|, i requires 0 <= i < |nds| => if nds[i].id == id then Resize(nds[i], w, h) else nds[i])
  }

  /** The size a group grows to when a new child is dropped at `p`. */
  function DropGrowth(g: Node, p: Point): (r: (int, int))
    ensures r.0 >= CurrentWidth(g) && r.1 >= CurrentHeight(g)
    ensures r.0 >= p.x - AbsolutePosition(g).x + DefaultChildWidth + Padding
    ensures r.1 >= p.y - AbsolutePosition(g).y + DefaultChildHeight + Padding
  {
    var rel := p.Minus(AbsolutePosition(g));
    (Grow(CurrentWidth(g), rel.x + DefaultChildWidth + Padding),
     Grow(CurrentHeight(g), rel.y + DefaultChildHeight + Padding))
  }

  datatype DropResult = DropResult(nodes: seq<Node>, created: Node)

  /** `onDrop` once the wrapper is mounted: `p` is the drop point in diagram
      coordinates, `newId` the id `getId` returned. */
  function DropNode(nds: seq<Node>, labelText: string, p: Point, newId: string): (r: DropResult)
    ensures |r.nodes| == |nds| + 1
    ensures forall i :: 0 <= i < |nds| ==> r.nodes[i].id == nds[i].id
    ensures r.nodes[|nds|].id == newId
    ensures r.created.id == newId && r.created.kind == KindForLabel(labelText)
    ensures r.created.data == NodeData(labelText, labelText, "")
    ensures r.created.parentNode.Some? <==> DropTarget(nds, KindForLabel(labelText), p).Some?
    ensures r.created == CreatedNode(newId, labelText, KindForLabel(labelText), r.created.position, r.created.parentNode)
    ensures match DropTarget(nds, KindForLabel(labelText), p)
            case None => r.nodes == nds + [r.created] && r.created.position == p
            case Some(t) =>
              && r.created.parentNode == Some(nds[t].id)
              && AbsolutePosition(nds[t]).Plus(r.created.position) == p
              && var (w, h) := DropGrowth(nds[t], p);
                 var grows := w != CurrentWidth(nds[t]) || h != CurrentHeight(nds[t]);
                 && (forall i :: 0 <= i < |nds| ==>
                       r.nodes[i] == if grows && nds[i].id == nds[t].id then Resize(nds[i], w, h) else nds[i])
                 && r.nodes[|nds|] == if grows && newId == nds[t].id then Resize(r.created, w, h) else r.created
  {
    var kind := KindForLabel(labelText);
    match DropTarget(nds, kind, p)
    case None =>
      var n := CreatedNode(newId, labelText, kind, p, None);
      DropResult(nds + [n], n)
    case Some(t) =>
      var g := nds[t];
      var n := CreatedNode(newId, labelText, kind, p.Minus(AbsolutePosition(g)), Some(g.id));
      var appended := nds + [n];
      var (w, h) := DropGrowth(g, p);
      if w != CurrentWidth(g) || h != CurrentHeight(g) then
        DropResult(ResizeAll(appended, g.id, w, h), n)
      else
        DropResult(appended, n)
  }

  /** A dropped group is never parented: it keeps the drop point, starts at
      300 by 200, and the rest of the list is untouched. */
  lemma DropGroupIsTopLevel(nds: seq<Node>, labelText: string, p: Point, newId: string)
    requires labelText in GroupTypes
    ensures var r := DropNode(nds, labelText, p, newId);
            && r.created.parentNode == None && r.created.extent == None
            && r.created.position == p
            && r.created.style == Style(Some(DefaultGroupWidth), Some(DefaultGroupHeight), Some(-1))
            && r.nodes == nds + [r.created]
  {
  }

  /** Of two groups that both contain the drop point, the later listed wins. */
  lemma DropTieBreak(nds: seq<Node>, kind: string, p: Point, i: nat, j: nat)
    requires i < j < |nds|
    requires IsDropTarget(kind, p, nds[i]) && IsDropTarget(kind, p, nds[j])
    ensures DropTarget(nds, kind, p).Some? && DropTarget(nds, kind, p).value >= j
  {
  }

  /** With a fresh id, a drop appends exactly its new node and changes at most
      the target group (every node sharing its id), and only by growing it;
      conversely, when the child does not fit, the target and every node
      sharing its id take the grown size. */
  lemma DropChangesOnlyTarget(nds: seq<Node>, labelText: string, p: Point, newId: string)
    requires forall i :: 0 <= i < |nds| ==> nds[i].id != newId
    ensures var r := DropNode(nds, labelText, p, newId);
            && r.nodes[|nds|] == r.created
            && (forall i :: 0 <= i < |nds| && r.nodes[i] != nds[i] ==>
                 var t := DropTarget(nds, KindForLabel(labelText), p);
                 && t.Some? && nds[i].id == nds[t.value].id
                 && var (w, h) := DropGrowth(nds[t.value], p);
                    && (w != CurrentWidth(nds[t.value]) || h != CurrentHeight(nds[t.value]))
                    && r.nodes[i] == Resize(nds[i], w, h))
            && match DropTarget(nds, KindForLabel(labelText), p)
               case None => true
               case Some(t) =>
                 var (w, h) := DropGrowth(nds[t], p);
                 (w != CurrentWidth(nds[t]) || h != CurrentHeight(nds[t])) ==>
                   && r.nodes[t] == Resize(nds[t], w, h)
                   && r.nodes[t].width == Some(w) && r.nodes[t].height == Some(h)
                   && r.nodes[t].style.width == Some(w) && r.nodes[t].style.height == Some(h)
                   && forall i :: 0 <= i < |nds| && nds[i].id == nds[t].id ==> r.nodes[i] == Resize(nds[i], w, h)
  {
    var kind := KindForLabel(labelText);
    var t := DropTarget(nds, kind, p);
    if t.Some? {
      var g := nds[t.value];
      var n := CreatedNode(newId, labelText, kind, p.Minus(AbsolutePosition(g)), Some(g.id));
      var appended := nds + [n];
      assert appended[|nds|] == n && n.id != g.id;
      assert forall i :: 0 <= i < |nds| ==> appended[i] == nds[i];
    }
  }

  /** The target grows to fit the new child plus padding and never shrinks;
      each dimension changes only when it was strictly too small. */
  lemma DropGrowthGrowsOnly(g: Node, p: Point)
    ensures var rel := p.Minus(AbsolutePosition(g));
            var (w, h) := DropGrowth(g, p);
            && w >= CurrentWidth(g) && h >= CurrentHeight(g)
            && w >= rel.x + DefaultChildWidth + Padding && h >= rel.y + DefaultChildHeight + Padding
            && (w != CurrentWidth(g) <==> rel.x + DefaultChildWidth + Padding > CurrentWidth(g))
            && (h != CurrentHeight(g) <==> rel.y + DefaultChildHeight + Padding > CurrentHeight(g))
  {
  }

  /** A child that fits exactly (the required size equals the current size)
      does not resize its group: the comparison is strict. */
  lemma DropExactFitDoesNotResize(nds: seq<Node>, labelText: string, p: Point, newId: string, t: nat)
    requires DropTarget(nds, KindForLabel(labelText), p) == Some(t)
    requires var rel := p.Minus(AbsolutePosition(nds[t]));
             && rel.x + DefaultChildWidth + Padding == CurrentWidth(nds[t])
             && rel.y + DefaultChildHeight + Padding == CurrentHeight(nds[t])
    ensures DropNode(nds, labelText, p, newId).nodes == nds + [DropNode(nds, labelText, p, newId).created]
  {
  }

  /** A drop with a counter ahead of the list keeps the counter ahead once it
      is advanced, so every id the counter hands out is fresh. */
  lemma DropKeepsCounterAhead(nds: seq<Node>, labelText: string, p: Point, k: nat)
    requires CounterAhead(nds, k)
    ensures CounterAhead(DropNode(nds, labelText, p, NewNodeId(k)).nodes, k + 1)
    ensures forall i :: 0 <= i < |nds| ==> nds[i].id != NewNodeId(k)
  {
    CounterAheadFresh(nds, k);
    ParseNewNodeIdOf(k);
    var r := DropNode(nds, labelText, p, NewNodeId(k)).nodes;
    forall i | 0 <= i < |r| ensures IdBelow(r[i].id, k + 1) {
      if i < |nds| {
        assert IdBelow(nds[i].id, k);
      }
    }
  }

  // ---------------------------------------------------------------------
  // Drag-stop (onNodeDragStop)
  // ---------------------------------------------------------------------

  predicate IsGroup(n: Node) {
    n.kind == "group"
  }

  /** The group a dragged node is attached to: the last group among the nodes
      the hit test reports. */
  function DragTarget(hits: seq<Node>): (r: Option<nat>)
    ensures r.Some? ==> r.value < |hits| && IsGroup(hits[r.value])
    ensures r.Some? ==> forall j :: r.value < j < |hits| ==> !IsGroup(hits[j])
    ensures r.None? ==> forall j :: 0 <= j < |hits| ==> !IsGroup(hits[j])
  {
    LastIndexWhere(hits, IsGroup)
  }

  /** The dragged node's position relative to the target group. */
  function RelativeTo(dragged: Node, target: Node): Point {
    AbsolutePosition(dragged).Minus(AbsolutePosition(target))
  }

  /** Grows a group to the required size, keeping the node itself when
      neither dimension is strictly too small. */
  function GrowToFit(n: Node, requiredW: int, requiredH: int): (r: Node)
    ensures requiredW <= CurrentWidth(n) && requiredH <= CurrentHeight(n) ==> r == n
    ensures requiredW > CurrentWidth(n) || requiredH > CurrentHeight(n) ==>
              r == Resize(n, Grow(CurrentWidth(n), requiredW), Grow(CurrentHeight(n), requiredH))
  {
    var w := Grow(CurrentWidth(n), requiredW);
    var h := Grow(CurrentHeight(n), requiredH);
    if w != CurrentWidth(n) || h != CurrentHeight(n) then Resize(n, w, h) else n
  }

  /** Attaches a node to a group at a relative position, confined to it. */
  function Reparent(n: Node, groupId: string, rel: Point): Node {
    n.(parentNode := Some(groupId), position := rel, extent := Some("parent"))
  }

  /** The `nds.map` of the drag-stop updater, for one node. */
  function AfterDragStop(n: Node, target: Node, dragged: Node): (r: Node)
    ensures r.id == n.id
    ensures n.id != target.id && n.id != dragged.id ==> r == n
    ensures n.id != target.id && n.id == dragged.id ==>
              r.parentNode == Some(target.id) && r.data == n.data && r.kind == n.kind
  {
    var rel := RelativeTo(dragged, target);
    if n.id == target.id then
      GrowToFit(n, rel.x + OrElse(dragged.width, DefaultChildWidth) + Padding,
                rel.y + OrElse(dragged.height, DefaultChildHeight) + Padding)
    else if n.id == dragged.id then
      if n.parentNode == Some(target.id) then n else Reparent(n, target.id, rel)
    else n
  }

  /** `onNodeDragStop`: `dragged` is the node of the event and `hits` what the
      hit test reports for it. */
  function DragStop(nds: seq<Node>, dragged: Node, hits: seq<Node>): (r: seq<Node>)
    ensures |r| == |nds|
    ensures forall i :: 0 <= i < |nds| ==> r[i].id == nds[i].id
  {
    if dragged.kind == "group" then nds
    else match DragTarget(hits)
      case None => nds
      case Some(k) => seq(|nds|, i requires 0 <= i < |nds| => AfterDragStop(nds[i], hits[k], dragged))
  }

  /** Groups are never re-parented by dragging, and a drag that ends over no
      group leaves the list as it was. */
  lemma DragStopWithoutTargetIsNoOp(nds: seq<Node>, dragged: Node, hits: seq<Node>)
    requires dragged.kind == "group" || DragTarget(hits).None?
    ensures DragStop(nds, dragged, hits) == nds
  {
  }

  /** What a drag-stop onto group `hits[k]` does to each node: the group
      grows to fit, the dragged node is attached at its relative position
      unless it already belongs to the group, and nothing else changes. */
  lemma DragStopEffect(nds: seq<Node>, dragged: Node, hits: seq<Node>, i: nat)
    requires dragged.kind != "group" && DragTarget(hits).Some? && i < |nds|
    ensures var t := hits[DragTarget(hits).value];
            var rel := RelativeTo(dragged, t);
            var r := DragStop(nds, dragged, hits);
            && (nds[i].id != t.id && nds[i].id != dragged.id ==> r[i] == nds[i])
            && (nds[i].id == t.id ==>
                  r[i] == GrowToFit(nds[i], rel.x + OrElse(dragged.width, DefaultChildWidth) + Padding,
                                    rel.y + OrElse(dragged.height, DefaultChildHeight) + Padding))
            && (nds[i].id == dragged.id && nds[i].id != t.id && nds[i].parentNode == Some(t.id) ==>
                  r[i] == nds[i])
            && (nds[i].id == dragged.id && nds[i].id != t.id && nds[i].parentNode != Some(t.id) ==>
                  && r[i].parentNode == Some(t.id)
                  && r[i].extent == Some("parent")
                  && AbsolutePosition(t).Plus(r[i].position) == AbsolutePosition(dragged)
                  && r[i] == nds[i].(parentNode := r[i].parentNode, position := r[i].position,
                                     extent := r[i].extent))
  {
  }

  /** Growing to fit twice is growing once: a group already large enough is
      left alone. */
  lemma GrowToFitIdempotent(n: Node, requiredW: int, requiredH: int)
    ensures GrowToFit(GrowToFit(n, requiredW, requiredH), requiredW, requiredH)
            == GrowToFit(n, requiredW, requiredH)
  {
    var m := GrowToFit(n, requiredW, requiredH);
    if m != n {
      var w := Grow(CurrentWidth(n), requiredW);
      var h := Grow(CurrentHeight(n), requiredH);
      assert m == Resize(n, w, h);
      assert CurrentWidth(m) >= requiredW by {
        if w == 0 {
          assert CurrentWidth(m) == DefaultGroupWidth;
        }
      }
      assert CurrentHeight(m) >= requiredH by {
        if h == 0 {
          assert CurrentHeight(m) == DefaultGroupHeight;
        }
      }
    }
  }

  /** Repeating the same drag-stop changes nothing more: the node is already
      in the group and the group already fits it. */
  lemma DragStopIdempotent(nds: seq<Node>, dragged: Node, hits: seq<Node>)
    ensures DragStop(DragStop(nds, dragged, hits), dragged, hits) == DragStop(nds, dragged, hits)
  {
    if dragged.kind != "group" && DragTarget(hits).Some? {
      var t := hits[DragTarget(hits).value];
      var rel := RelativeTo(dragged, t);
      var r := DragStop(nds, dragged, hits);
      var rr := DragStop(r, dragged, hits);
      forall i | 0 <= i < |nds| ensures rr[i] == r[i] {
        if nds[i].id == t.id {
          GrowToFitIdempotent(nds[i], rel.x + OrElse(dragged.width, DefaultChildWidth) + Padding,
                              rel.y + OrElse(dragged.height, DefaultChildHeight) + Padding);
        }
      }
    }
  }

  // ---------------------------------------------------------------------
  // Detach (handleDetachNode) and data update (handleNodeUpdate)
  // ---------------------------------------------------------------------

  predicate HasId(id: string, n: Node) {
    n.id == id
  }

  /** `nds.find((n) => n.id === id)`. */
  function FindById(nds: seq<Node>, id: string): (r: Option<nat>)
    ensures r.Some? ==> r.value < |nds| && nds[r.value].id == id
    ensures r.Some? ==> forall j :: 0 <= j < r.value ==> nds[j].id != id
    ensures r.None? ==> forall j :: 0 <= j < |nds| ==> nds[j].id != id
  {
    FirstIndexWhere(nds, n => HasId(id, n))
  }

  /** The last node carrying the id: the one `handleNodeUpdate` leaves
      selected. */
  function LastWithId(nds: seq<Node>, id: string): (r: Option<nat>)
    ensures r.Some? ==> r.value < |nds| && nds[r.value].id == id
    ensures r.Some? ==> forall j :: r.value < j < |nds| ==> nds[j].id != id
    ensures r.None? ==> forall j :: 0 <= j < |nds| ==> nds[j].id != id
  {
    LastIndexWhere(nds, n => HasId(id, n))
  }

  /** The last node with an id, after one more node is listed. */
  lemma LastWithIdSnoc(nds: seq<Node>, n: Node, id: string)
    ensures LastWithId(nds + [n], id) == if n.id == id then Some(|nds|) else LastWithId(nds, id)
  {
    var s := nds + [n];
    var r := LastWithId(s, id);
    if n.id != id {
      var q := LastWithId(nds, id);
      assert forall j :: 0 <= j < |nds| ==> s[j] == nds[j];
      if r.Some? {
        assert q.Some? && q.value >= r.value;
        assert s[q.value].id == id;
      } else {
        assert forall j :: 0 <= j < |nds| ==> nds[j].id != id;
      }
    }
  }

  /** `find` by id depends on the ids alone. */
  lemma FindBySameIds(a: seq<Node>, b: seq<Node>, id: string)
    requires |a| == |b| && forall i :: 0 <= i < |a| ==> a[i].id == b[i].id
    ensures FindById(a, id) == FindById(b, id)
  {
    forall j | 0 <= j < |a| ensures HasId(id, a[j]) <==> HasId(id, b[j]) {
    }
  }

  /** `handleDetachNode`'s updater: the (first) node with the id, when it has
      a parent, is moved to absolute coordinates (its parent's absolute
      position plus its own, or its own when the parent is gone) and loses
      its parent and its extent; every node carrying that id gets the same. */
  function DetachNode(nds: seq<Node>, id: string): (r: seq<Node>)
    ensures |r| == |nds|
    ensures forall i :: 0 <= i < |nds| ==> r[i].id == nds[i].id
  {
    match FindById(nds, id)
    case None => nds
    case Some(k) =>
      var n := nds[k];
      if !IsTruthy(n.parentNode) then nds
      else
        var pos := DetachedPosition(nds, n);
        seq(|nds|, i requires 0 <= i < |nds| =>
          if nds[i].id == id then nds[i].(parentNode := None, position := pos, extent := None) else nds[i])
  }

  /** An unknown id, or a node without a parent, leaves the list unchanged. */
  lemma DetachNoOp(nds: seq<Node>, id: string)
    requires FindById(nds, id).None? || !IsTruthy(nds[FindById(nds, id).value].parentNode)
    ensures DetachNode(nds, id) == nds
  {
  }

  /** Where `handleDetachNode` puts the detached node: its parent's absolute
      position plus its own when the parent is listed, its own otherwise. */
  function DetachedPosition(nds: seq<Node>, n: Node): Point
    requires IsTruthy(n.parentNode)
  {
    match FindById(nds, n.parentNode.value)
    case Some(j) => AbsolutePosition(nds[j]).Plus(n.position)
    case None => n.position
  }

  /** Detaching a child moves every node carrying its id to the child's
      detached position, unparented and unconfined, keeping all else; nodes
      with other ids are untouched. */
  lemma DetachEffect(nds: seq<Node>, id: string, k: nat)
    requires FindById(nds, id) == Some(k) && IsTruthy(nds[k].parentNode)
    ensures var r := DetachNode(nds, id);
            var pos := DetachedPosition(nds, nds[k]);
            forall i :: 0 <= i < |nds| ==>
              r[i] == if nds[i].id == id then nds[i].(position := pos, parentNode := None, extent := None) else nds[i]
  {
  }

  /** With its parent listed, the child lands at the parent's absolute
      position plus its relative one. */
  lemma DetachRestoresAbsolute(nds: seq<Node>, id: string, k: nat, j: nat)
    requires FindById(nds, id) == Some(k) && IsTruthy(nds[k].parentNode)
    requires FindById(nds, nds[k].parentNode.value) == Some(j)
    ensures var r := DetachNode(nds, id);
            && r[k].position == AbsolutePosition(nds[j]).Plus(nds[k].position)
            && r[k].parentNode == None && r[k].extent == None
            && r[k] == nds[k].(position := r[k].position, parentNode := None, extent := None)
            && forall i :: 0 <= i < |nds| && nds[i].id != id ==> r[i] == nds[i]
  {
  }

  /** With its parent missing from the list, the child keeps its position
      but still loses its parent and its extent. */
  lemma DetachWithoutParentKeepsPosition(nds: seq<Node>, id: string, k: nat)
    requires FindById(nds, id) == Some(k) && IsTruthy(nds[k].parentNode)
    requires FindById(nds, nds[k].parentNode.value).None?
    ensures var r := DetachNode(nds, id);
            r[k] == nds[k].(parentNode := None, extent := None)
  {
  }

  /** Detaching twice is detaching once. */
  lemma DetachIdempotent(nds: seq<Node>, id: string)
    ensures DetachNode(DetachNode(nds, id), id) == DetachNode(nds, id)
  {
    var r := DetachNode(nds, id);
    FindBySameIds(nds, r, id);
    var f := FindById(nds, id);
    if f.Some? && IsTruthy(nds[f.value].parentNode) {
      assert !IsTruthy(r[f.value].parentNode);
    }
  }

  /** `handleNodeUpdate`'s updater: every node with the id gets `data` as its
      data and nothing else. */
  function UpdateNodeData(nds: seq<Node>, id: string, data: NodeData): (r: seq<Node>)
    ensures |r| == |nds|
    ensures forall i :: 0 <= i < |nds| ==>
              r[i] == if nds[i].id == id then nds[i].(data := data) else nds[i]
  {
    seq(|nds|, i requires 0 <= i < |nds| => if nds[i].id == id then nds[i].(data := data) else nds[i])
  }

  /** An update for an unknown id changes nothing (it never fails). */
  lemma UpdateUnknownIdIsNoOp(nds: seq<Node>, id: string, data: NodeData)
    requires FindById(nds, id).None?
    ensures UpdateNodeData(nds, id, data) == nds
  {
  }
}
