/**
 * The records the diagram canvas works on: React Flow nodes and edges as the
 * canvas reads and writes them, chat messages, scenarios, evaluation results
 * and the saved project document. Coordinates and sizes are integers.
 */
module DiagramTypes {
  import opened Wrappers

  datatype Point = Point(x: int, y: int) {
    function Plus(o: Point): Point {
      Point(x + o.x, y + o.y)
    }
    function Minus(o: Point): Point {
      Point(x - o.x, y - o.y)
    }
  }

  /** A node's `data`: what the palette and the properties panel set
      (`labelText` is the source's `label`, a keyword in Dafny). */
  datatype NodeData = NodeData(labelText: string, originalType: string, description: string)

  /** The entries of a node's `style` the canvas reads and writes; `None` is
      an entry that is absent or not a number. */
  datatype Style = Style(width: Option<int>, height: Option<int>, zIndex: Option<int>)

  datatype Node = Node(
    id: string,
    kind: string,                     // React Flow's `type`: "group", "custom", ...
    position: Point,                  // relative to the parent when parented
    positionAbsolute: Option<Point>,  // measured by React Flow
    width: Option<int>,               // measured by React Flow
    height: Option<int>,              // measured by React Flow
    style: Style,
    parentNode: Option<string>,
    extent: Option<string>,
    data: NodeData)

  datatype Edge = Edge(id: Option<string>, source: string, target: string)

  datatype ChatMessage = ChatMessage(role: string, content: string)

  datatype Requirements = Requirements(users: string, traffic: string, availability: string, budget: string)

  datatype Scenario = Scenario(
    id: string,
    title: string,
    description: string,
    requirements: Requirements,
    isCustom: Option<bool>,
    difficulty: Option<string>)

  datatype EvaluationResult = EvaluationResult(score: int, feedback: string, improvement: string)

  /** The saved project document. */
  datatype ProjectSaveData = ProjectSaveData(
    version: string,
    timestamp: string,
    projectId: string,
    scenario: Scenario,
    memo: string,
    nodes: seq<Node>,
    edges: seq<Edge>,
    chatHistory: seq<ChatMessage>,
    evaluation: Option<EvaluationResult>)

  /** JavaScript's `v || fallback` on an optional number: absent and 0 fall through. */
  function OrElse(v: Option<int>, fallback: int): (r: int)
    ensures v.Some? && v.value != 0 ==> r == v.value
    ensures v.None? || v.value == 0 ==> r == fallback
  {
    if v.Some? && v.value != 0 then v.value else fallback
  }

  /** JavaScript truthiness of an optional string: absent and "" are falsy. */
  predicate IsTruthy(s: Option<string>) {
    s.Some? && s.value != ""
  }

  /** `n.positionAbsolute || n.position`. */
  function AbsolutePosition(n: Node): Point {
    n.positionAbsolute.GetOr(n.position)
  }

  /** The last index whose element satisfies `p` (`slice().reverse().find`,
      or the last element of a `filter`). */
  function LastIndexWhere<T>(s: seq<T>, p: T -> bool): (r: Option<nat>)
    ensures r.Some? ==> r.value < |s| && p(s[r.value])
    ensures r.Some? ==> forall j :: r.value < j < |s| ==> !p(s[j])
    ensures r.None? ==> forall j :: 0 <= j < |s| ==> !p(s[j])
    decreases |s|
  {
    if |s| == 0 then None
    else if p(s[|s| - 1]) then Some(|s| - 1)
    else LastIndexWhere(s[..|s| - 1], p)
  }

  /** The first index whose element satisfies `p` (`find`). */
  function FirstIndexWhere<T>(s: seq<T>, p: T -> bool): (r: Option<nat>)
    ensures r.Some? ==> r.value < |s| && p(s[r.value])
    ensures r.Some? ==> forall j :: 0 <= j < r.value ==> !p(s[j])
    ensures r.None? ==> forall j :: 0 <= j < |s| ==> !p(s[j])
    decreases |s|
  {
    if |s| == 0 then None
    else if p(s[0]) then Some(0)
    else match FirstIndexWhere(s[1..], p)
      case None => None
      case Some(k) => Some(k + 1)
  }
}
