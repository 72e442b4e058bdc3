/**
 * The project entity of backend/src/domain/model/project.rs: a project with
 * its identity, title, diagram and chat, whose title can be changed in
 * place. The identifier is an opaque string (a UUID in the program) and the
 * clock reading becomes a parameter.
 */
module ProjectModel {
  import opened Wrappers
  import opened Json

  datatype Position = Position(x: int, y: int)

  datatype DiagramNode = DiagramNode(id: string, typeLabel: string, position: Position)

  datatype DiagramEdge = DiagramEdge(source: string, target: string)

  datatype Diagram = Diagram(nodes: seq<DiagramNode>, edges: seq<DiagramEdge>)

  datatype ChatLog = ChatLog(role: string, content: string)

  class Project {
    const id: string
    var title: string
    const scenarioId: string
    var lastModified: int          // the time of the last change
    var diagram: Diagram
    var chatHistory: seq<ChatLog>
    var evaluation: Option<Json>

    /** `Project::new`: the given parts are stored as they are, the project
        is stamped with `now` and has no evaluation yet. */
    constructor (id: string, title: string, scenarioId: string, diagram: Diagram, chatHistory: seq<ChatLog>, now: int)
      ensures this.id == id && this.title == title && this.scenarioId == scenarioId
      ensures this.diagram == diagram && this.chatHistory == chatHistory
      ensures lastModified == now && evaluation == None
    {
      this.id := id;
      this.title := title;
      this.scenarioId := scenarioId;
      this.diagram := diagram;
      this.chatHistory := chatHistory;
      lastModified := now;
      evaluation := None;
    }

    /** `change_title`: an empty title is ignored; any other replaces the
        title and stamps the project with `now`. Nothing else changes. */
    method ChangeTitle(newTitle: string, now: int)
      modifies this
      ensures newTitle == "" ==> title == old(title) && lastModified == old(lastModified)
      ensures newTitle != "" ==> title == newTitle && lastModified == now
      ensures diagram == old(diagram) && chatHistory == old(chatHistory) && evaluation == old(evaluation)
    {
      if newTitle != "" {
        title := newTitle;
        lastModified := now;
      }
    }
  }
}
