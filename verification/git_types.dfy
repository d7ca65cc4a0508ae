/** The records exchanged with the graph builder: the commit as fetched from
    the hosting service, and the node and edge records handed to the graph
    renderer. Optional TypeScript fields (`field?`) are `Option`s. */
module GitTypes {
  import opened Wrappers

  datatype Author = Author(name: string, email: string, date: string, avatarUrl: Option<string>)

  /** A commit: its SHA, its parents' SHAs in order, and descriptive fields
      the builder carries along untouched. */
  datatype GitCommit = GitCommit(
    sha: string,
    message: string,
    author: Author,
    parents: seq<string>,
    url: string)
  {
    predicate IsMerge() {
      |parents| > 1
    }
  }

  /** The `type` of a node: 'commit' | 'branch' | 'merge'. */
  datatype NodeType = CommitNode | BranchNode | MergeNode

  datatype Position = Position(x: int, y: int)

  datatype NodeData = NodeData(commit: GitCommit, branch: Option<string>, color: string)

  datatype GraphNode = GraphNode(id: string, kind: NodeType, position: Position, data: NodeData)

  /** The `type` of an edge: 'default' | 'merge'. */
  datatype EdgeType = DefaultEdge | MergeEdge

  datatype EdgeStyle = EdgeStyle(stroke: string)

  datatype GraphEdge = GraphEdge(
    id: string,
    source: string,
    target: string,
    kind: EdgeType,
    style: Option<EdgeStyle>,
    animated: Option<bool>)

  /** The builder's result, `{ nodes, edges }`. */
  datatype CommitGraph = CommitGraph(nodes: seq<GraphNode>, edges: seq<GraphEdge>)
}
