/**
 * The state of the canvas component of
 * frontend/src/components/ArchitectureCanvas.tsx and its event handlers.
 * React state set through setters is a class whose fields the handlers
 * reassign; the module-level `id` counter of `getId` is an object of its own,
 * shared by every canvas of the page.
 *
 * The node-list updates are the functions of `Containment`; the documents
 * built from the state are those of `CanvasPayloads`.
 */
module CanvasStore {
  import opened Wrappers
  import opened DiagramTypes
  import opened Containment
  import opened CanvasPayloads
  import Version
  import FileHandler

  /** The module-level counter behind `getId`. */
  class IdCounter {
    var next: nat

    constructor ()
      ensures next == 0
    {
      next := 0;
    }

    /** `dndnode_${id++}`. */
    method GetId() returns (id: string)
      modifies this
      ensures id == NewNodeId(old(next)) && next == old(next) + 1
    {
      id := NewNodeId(next);
      next := next + 1;
    }
  }

  datatype Tab = ChatTab | DesignTab | EvaluateTab

  /** The state no node-list handler touches. */
  datatype Session = Session(
    edges: seq<Edge>,
    version: string,
    chat: seq<ChatMessage>,
    memo: string,
    evaluation: Option<EvaluationResult>,
    tab: Tab)

  /** A file handed to the browser for download. */
  datatype SavedFile = SavedFile(name: string, content: string)

  /** The greeting of a fixed scenario. */
  function FixedGreeting(title: string): string {
    "こんにちは。「" + title + "」の件についてですね。どのようなシステムをご提案いただけますか？"
  }

  /** The greeting that follows the hidden brief of a custom scenario. */
  function CustomGreeting(title: string): string {
    "ご依頼ありがとうございます。「" + title + "」のシステム構築ですね。\n\n今回のプロジェクトについて、どのような点から詳細を詰めていきましょうか？"
  }

  /** The opening chat of a new session: a custom scenario starts with the
      hidden brief as a system message, then the model's greeting. */
  function InitialMessages(scenario: Scenario, brief: string): (m: seq<ChatMessage>)
    ensures scenario.isCustom == Some(true) ==>
              m == [ChatMessage("system", brief), ChatMessage("model", CustomGreeting(scenario.title))]
    ensures scenario.isCustom != Some(true) ==> m == [ChatMessage("model", FixedGreeting(scenario.title))]
  {
    if scenario.isCustom == Some(true) then
      [ChatMessage("system", brief), ChatMessage("model", CustomGreeting(scenario.title))]
    else
      [ChatMessage("model", FixedGreeting(scenario.title))]
  }

  class GraphStore {
    var nodes: seq<Node>
    var edges: seq<Edge>
    var version: string
    var chat: seq<ChatMessage>
    var memo: string
    var evaluation: Option<EvaluationResult>
    var tab: Tab
    var selected: Option<Node>
    const scenario: Scenario
    const projectId: string      // `projectIdRef`, drawn once per canvas
    const counter: IdCounter

    function Rest(): Session
      reads this
    {
      Session(edges, version, chat, memo, evaluation, tab)
    }

    /** Every id the counter will hand out is free in the node list. */
    predicate IdsFresh()
      reads this, counter
    {
      CounterAhead(nodes, counter.next)
    }

    /** A freshly mounted canvas. */
    constructor (scenario: Scenario, projectId: string, counter: IdCounter)
      ensures this.scenario == scenario && this.projectId == projectId && this.counter == counter
      ensures nodes == [] && edges == [] && chat == [] && memo == "" && evaluation == None
      ensures version == Version.InitialVersion && tab == ChatTab && selected == None
      ensures IdsFresh()
    {
      this.scenario := scenario;
      this.projectId := projectId;
      this.counter := counter;
      nodes := [];
      edges := [];
      version := Version.InitialVersion;
      chat := [];
      memo := "";
      evaluation := None;
      tab := ChatTab;
      selected := None;
    }

    /** The initialisation effect. A loaded project replaces the diagram,
        the chat and the memo, rebuilds edge ids, opens the evaluation when
        it has one, and continues at the version after the saved one.
        Otherwise an empty chat starts the session at "1.0" with the
        opening messages (`brief` is the hidden system prompt of a custom
        scenario). */
    method Initialise(loaded: Option<ProjectSaveData>, brief: string)
      modifies this
      ensures selected == old(selected)
      ensures loaded.Some? ==>
                && nodes == loaded.value.nodes
                && edges == LoadEdges(loaded.value.edges)
                && chat == loaded.value.chatHistory
                && memo == loaded.value.memo
                && evaluation == (if loaded.value.evaluation.Some? then loaded.value.evaluation else old(evaluation))
                && tab == (if loaded.value.evaluation.Some? then EvaluateTab else old(tab))
                && version == Version.NextVersion(loaded.value.version)
      ensures loaded.None? && old(chat) == [] ==>
                && chat == InitialMessages(scenario, brief) && version == Version.InitialVersion
                && nodes == old(nodes) && edges == old(edges) && memo == old(memo)
                && evaluation == old(evaluation) && tab == old(tab)
      ensures loaded.None? && old(chat) != [] ==> nodes == old(nodes) && Rest() == old(Rest())
    {
      match loaded
      case Some(doc) =>
        nodes := doc.nodes;
        edges := LoadEdges(doc.edges);
        chat := doc.chatHistory;
        memo := doc.memo;
        if doc.evaluation.Some? {
          evaluation := doc.evaluation;
          tab := EvaluateTab;
        }
        version := Version.NextVersion(doc.version);
      case None =>
        if chat == [] {
          version := Version.InitialVersion;
          chat := InitialMessages(scenario, brief);
        }
    }

    /** `onDrop`: `labelText` is the dragged palette label, `p` the drop
        point in diagram coordinates, `mounted` whether the wrapper element
        exists. The new node is selected. */
    method OnDrop(labelText: string, p: Point, mounted: bool)
      modifies this, counter
      ensures Rest() == old(Rest())
      ensures !mounted ==> nodes == old(nodes) && selected == old(selected) && counter.next == old(counter.next)
      ensures mounted ==>
                var r := DropNode(old(nodes), labelText, p, NewNodeId(old(counter.next)));
                && nodes == r.nodes && selected == Some(r.created)
                && counter.next == old(counter.next) + 1
      ensures old(IdsFresh()) ==> IdsFresh()
    {
      if mounted {
        ghost var wasFresh := IdsFresh();
        if wasFresh {
          DropKeepsCounterAhead(nodes, labelText, p, counter.next);
        }
        var id := counter.GetId();
        var r := DropNode(nodes, labelText, p, id);
        nodes := r.nodes;
        selected := Some(r.created);
      }
    }

    /** `onNodeDragStop`: `hits` is what the hit test reports for `dragged`. */
    method OnNodeDragStop(dragged: Node, hits: seq<Node>)
      modifies this
      ensures nodes == DragStop(old(nodes), dragged, hits)
      ensures selected == old(selected) && Rest() == old(Rest())
      ensures old(IdsFresh()) ==> IdsFresh()
    {
      nodes := DragStop(nodes, dragged, hits);
    }

    /** `handleDetachNode`: the node is detached and the selection cleared. */
    method HandleDetachNode(id: string)
      modifies this
      ensures nodes == DetachNode(old(nodes), id)
      ensures selected == None && Rest() == old(Rest())
      ensures old(IdsFresh()) ==> IdsFresh()
    {
      nodes := DetachNode(nodes, id);
      selected := None;
    }

    /** `handleNodeUpdate`: the `map` selects each node it updates, so the
        last node carrying the id ends up selected; with no such node the
        selection stays. */
    method HandleNodeUpdate(id: string, data: NodeData)
      modifies this
      ensures nodes == UpdateNodeData(old(nodes), id, data)
      ensures selected == match LastWithId(old(nodes), id)
                          case Some(k) => Some(nodes[k])
                          case None => old(selected)
      ensures Rest() == old(Rest())
      ensures old(IdsFresh()) ==> IdsFresh()
    {
      var nds := nodes;
      var acc: seq<Node> := [];
      var sel := selected;
      var i := 0;
      while i < |nds|
        invariant 0 <= i <= |nds|
        invariant unchanged(this)
        invariant acc == UpdateNodeData(nds[..i], id, data)
        invariant sel == match LastWithId(nds[..i], id)
                         case Some(k) => Some(acc[k])
                         case None => selected
      {
        var n := nds[i];
        if n.id == id {
          n := n.(data := data);
          sel := Some(n);
        }
        assert nds[..i + 1] == nds[..i] + [nds[i]];
        LastWithIdSnoc(nds[..i], nds[i], id);
        acc := acc + [n];
        i := i + 1;
      }
      assert nds[..i] == nds;
      nodes := acc;
      selected := sel;
    }

    /** `onConnect`, with React Flow's `addEdge` reduced to an append. */
    method OnConnect(e: Edge)
      modifies this
      ensures edges == old(edges) + [e]
      ensures nodes == old(nodes) && selected == old(selected)
      ensures version == old(version) && chat == old(chat) && memo == old(memo)
      ensures evaluation == old(evaluation) && tab == old(tab)
    {
      edges := edges + [e];
    }

    /** `onNodeClick`: only custom and group nodes can be selected. */
    method OnNodeClick(node: Node)
      modifies this
      ensures selected == if node.kind == "custom" || node.kind == "group" then Some(node) else None
      ensures nodes == old(nodes) && Rest() == old(Rest())
    {
      if node.kind == "custom" || node.kind == "group" {
        selected := Some(node);
      } else {
        selected := None;
      }
    }

    /** `onPaneClick`. */
    method OnPaneClick()
      modifies this
      ensures selected == None && nodes == old(nodes) && Rest() == old(Rest())
    {
      selected := None;
    }

    /** `onSaveProject`: `timestamp` is the clock's ISO time and `stringify`
        stands for JSON.stringify. The file is written at the current version
        and only a save that succeeds advances the version. */
    method OnSaveProject(timestamp: string, stringify: ProjectSaveData -> Option<string>) returns (saved: Option<SavedFile>)
      modifies this
      ensures var payload := SavePayload(old(version), timestamp, projectId, scenario, memo, nodes, edges, chat, evaluation);
              match FileHandler.SaveProjectToLocalFile(stringify(payload))
              case Ok(content) =>
                && saved == Some(SavedFile(SaveFileName(scenario.title, old(version)), content))
                && FileHandler.DecodeText(content) == Ok(stringify(payload).value)
                && version == Version.NextVersion(old(version))
              case Err(_) => saved == None && version == old(version)
      ensures nodes == old(nodes) && edges == old(edges) && chat == old(chat) && memo == old(memo)
      ensures evaluation == old(evaluation) && tab == old(tab) && selected == old(selected)
    {
      var payload := SavePayload(version, timestamp, projectId, scenario, memo, nodes, edges, chat, evaluation);
      var name := SaveFileName(scenario.title, version);
      match FileHandler.SaveProjectToLocalFile(stringify(payload))
      case Ok(content) =>
        saved := Some(SavedFile(name, content));
        version := Version.NextVersion(version);
      case Err(_) =>
        saved := None;
    }

    /** `onEvaluate`: `response` is the outcome of posting the returned
        design (`None` when the request or its decoding failed). An empty
        diagram sends nothing and changes nothing; a result is stored and
        opens the evaluation tab. */
    method OnEvaluate(response: Option<EvaluationResult>) returns (request: Result<DesignData, EvaluateError>)
      modifies this
      ensures request == EvaluationPayload(scenario, nodes, edges)
      ensures request.Ok? && response.Some? ==> evaluation == response && tab == EvaluateTab
      ensures request.Err? || response.None? ==> evaluation == old(evaluation) && tab == old(tab)
      ensures nodes == old(nodes) && edges == old(edges) && selected == old(selected)
      ensures version == old(version) && chat == old(chat) && memo == old(memo)
    {
      request := EvaluationPayload(scenario, nodes, edges);
      if request.Ok? && response.Some? {
        evaluation := response;
        tab := EvaluateTab;
      }
    }
  }

  /** The counter is not advanced past the ids of a loaded project: after a
      reload, the first drop into a loaded diagram that already holds
      `dndnode_0` creates a second node with that id. */
  lemma LoadedIdsCanCollide(loaded: Node, labelText: string, p: Point)
    requires loaded.id == NewNodeId(0)
    ensures var r := DropNode([loaded], labelText, p, NewNodeId(0)).nodes;
            |r| == 2 && r[0].id == r[1].id
    ensures !CounterAhead([loaded], 0)
  {
    ParseNewNodeIdOf(0);
    assert !IdBelow([loaded][0].id, 0);
  }
}
