/**
 * The documents the canvas of frontend/src/components/ArchitectureCanvas.tsx
 * builds from its state: the design sent for evaluation, the saved project
 * document and its file name, and the edges rebuilt from a loaded project.
 */
module CanvasPayloads {
  import opened Wrappers
  import opened DiagramTypes
  import opened StrUtil

  /** A node as sent for evaluation. */
  datatype FlatNode = FlatNode(
    id: string,
    nodeType: string,          // the source's `type`
    labelText: string,         // the source's `label`
    description: string,
    position: Point,
    parentNode: Option<string>)

  datatype FlatEdge = FlatEdge(source: string, target: string)

  datatype DesignData = DesignData(scenario: Scenario, nodes: seq<FlatNode>, edges: seq<FlatEdge>)

  /** The one reason evaluation refuses to start. */
  datatype EvaluateError = NoComponents

  /** JavaScript's `s || fallback` on a string. */
  function StringOr(s: string, fallback: string): (r: string)
    ensures s != "" ==> r == s
    ensures s == "" ==> r == fallback
  {
    if s != "" then s else fallback
  }

  /** One node of `designData.nodes`: an empty original type is sent as
      "Unknown"; position and parent are the node's own. */
  function FlattenNode(n: Node): (f: FlatNode)
    ensures f.id == n.id && f.position == n.position && f.parentNode == n.parentNode
    ensures f.labelText == n.data.labelText && f.description == n.data.description
    ensures f.nodeType == (if n.data.originalType == "" then "Unknown" else n.data.originalType)
  {
    FlatNode(n.id, StringOr(n.data.originalType, "Unknown"), n.data.labelText,
             StringOr(n.data.description, ""), n.position, n.parentNode)
  }

  /** `onEvaluate` up to the request: an empty diagram is refused, otherwise
      every node and edge is sent, in order. */
  function EvaluationPayload(scenario: Scenario, nds: seq<Node>, eds: seq<Edge>): (r: Result<DesignData, EvaluateError>)
    ensures r.Err? <==> |nds| == 0
    ensures r.Ok? ==> r.value.scenario == scenario
    ensures r.Ok? ==> |r.value.nodes| == |nds| && forall i :: 0 <= i < |nds| ==> r.value.nodes[i] == FlattenNode(nds[i])
    ensures r.Ok? ==> |r.value.edges| == |eds|
    ensures r.Ok? ==> forall i :: 0 <= i < |eds| ==> r.value.edges[i] == FlatEdge(eds[i].source, eds[i].target)
  {
    if |nds| == 0 then Err(NoComponents)
    else Ok(DesignData(scenario,
                       seq(|nds|, i requires 0 <= i < |nds| => FlattenNode(nds[i])),
                       seq(|eds|, i requires 0 <= i < |eds| => FlatEdge(eds[i].source, eds[i].target))))
  }

  /** A node as written to the project file: React Flow's measurements
      (`positionAbsolute`, `width`, `height`) are not saved. */
  function SaveNode(n: Node): (s: Node)
    ensures s.positionAbsolute.None? && s.width.None? && s.height.None?
    ensures s.(positionAbsolute := n.positionAbsolute, width := n.width, height := n.height) == n
  {
    n.(positionAbsolute := None, width := None, height := None)
  }

  /** The `payload` of `onSaveProject`: the current version, the clock's
      timestamp and the session's project id are passed in. */
  function SavePayload(version: string, timestamp: string, projectId: string, scenario: Scenario, memo: string,
                       nds: seq<Node>, eds: seq<Edge>, chat: seq<ChatMessage>,
                       evaluation: Option<EvaluationResult>): (p: ProjectSaveData)
    ensures p.version == version && p.timestamp == timestamp && p.projectId == projectId
    ensures p.scenario == scenario && p.memo == memo && p.edges == eds && p.chatHistory == chat
    ensures p.evaluation == evaluation
    ensures |p.nodes| == |nds| && forall i :: 0 <= i < |nds| ==> p.nodes[i] == SaveNode(nds[i])
  {
    ProjectSaveData(version, timestamp, projectId, scenario, memo,
                    seq(|nds|, i requires 0 <= i < |nds| => SaveNode(nds[i])), eds, chat, evaluation)
  }

  /** Saving twice in a row saves the same nodes: the saved form has nothing
      left to drop. */
  lemma SaveNodeIdempotent(n: Node)
    ensures SaveNode(SaveNode(n)) == SaveNode(n)
  {
  }

  /** The id a loaded edge gets when it has none. */
  function DefaultEdgeId(source: string, target: string): string {
    "e_" + source + "-" + target
  }

  /** One edge of the load initialisation: a missing or empty id becomes
      `e_<source>-<target>`. */
  function LoadEdge(e: Edge): (r: Edge)
    ensures r.source == e.source && r.target == e.target
    ensures IsTruthy(e.id) ==> r.id == e.id
    ensures !IsTruthy(e.id) ==> r.id == Some(DefaultEdgeId(e.source, e.target))
  {
    Edge(Some(if IsTruthy(e.id) then e.id.value else DefaultEdgeId(e.source, e.target)), e.source, e.target)
  }

  function LoadEdges(eds: seq<Edge>): (r: seq<Edge>)
    ensures |r| == |eds| && forall i :: 0 <= i < |eds| ==> r[i] == LoadEdge(eds[i])
  {
    seq(|eds|, i requires 0 <= i < |eds| => LoadEdge(eds[i]))
  }

  /** After a load every edge has an id, so loading the loaded edges again
      changes nothing. */
  lemma LoadEdgesIdempotent(eds: seq<Edge>)
    ensures forall i :: 0 <= i < |eds| ==> IsTruthy(LoadEdges(eds)[i].id)
    ensures LoadEdges(LoadEdges(eds)) == LoadEdges(eds)
  {
    var r := LoadEdges(eds);
    forall i | 0 <= i < |eds| ensures IsTruthy(r[i].id) {
      if !IsTruthy(eds[i].id) {
        assert DefaultEdgeId(eds[i].source, eds[i].target)[0] == 'e';
      }
    }
  }

  /** The saved edges, loaded back, keep their ends and their ids. */
  lemma LoadSavedEdges(eds: seq<Edge>)
    requires forall i :: 0 <= i < |eds| ==> IsTruthy(eds[i].id)
    ensures LoadEdges(eds) == eds
  {
  }

  /** The downloaded file's name: the trimmed title, or "untitled" when that
      is empty, then `_v<version>.json`. */
  function SaveFileName(title: string, version: string): (name: string)
    ensures var stem := TrimWith(title, IsJsWhitespace);
            name == (if stem == "" then "untitled" else stem) + "_v" + version + ".json"
  {
    StringOr(TrimWith(title, IsJsWhitespace), "untitled") + "_v" + version + ".json"
  }

  /** The file name's stem is never empty and never starts or ends with
      whitespace. */
  lemma SaveFileNameStem(title: string, version: string)
    ensures var stem := StringOr(TrimWith(title, IsJsWhitespace), "untitled");
            && SaveFileName(title, version) == stem + "_v" + version + ".json"
            && stem != "" && !IsJsWhitespace(stem[0]) && !IsJsWhitespace(stem[|stem| - 1])
  {
    var u := "untitled";
    assert !IsJsWhitespace(u[0]) && !IsJsWhitespace(u[|u| - 1]);
  }
}
