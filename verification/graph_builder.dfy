/** The commit-graph builder of `src/utils/graphBuilder.ts`: one left-to-right
    pass over the commits (newest first) that infers a lineage ("branch") for
    every commit from parent pointers, lays out one node per commit and emits
    one edge per parent that is itself among the commits. Also the two string
    helpers of the same file, `shortenSha` and `truncateMessage`. */
module GraphBuilder {
  import opened Wrappers
  import opened GitTypes
  import opened JsString

  /** `BRANCH_COLORS`: the lane palette, indexed by lineage modulo its size. */
  const BranchColors: seq<string> :=
    ["#a855f7", "#06b6d4", "#22c55e", "#f97316", "#ec4899", "#3b82f6", "#eab308", "#ef4444"]

  /** x of lane 0, the horizontal distance between lanes, and the row height. */
  const LaneBaseX: int := 100
  const LaneWidth: int := 40
  const RowHeight: int := 80

  function ColorOf(lineage: nat): string {
    BranchColors[lineage % |BranchColors|]
  }

  /** The node's `branch` label, `branch-${lineage}`. */
  function BranchLabel(lineage: nat): string {
    "branch-" + NatToString(lineage)
  }

  // ---------------------------------------------------------------------------
  // Lineage inference

  /** The state threaded through the pass: `commitBranches` (SHA to lineage)
      and the counter `currentBranch`. */
  datatype LineageState = LineageState(tags: map<string, nat>, current: nat)

  const Initial := LineageState(map[], 0)

  /** No recorded lineage exceeds the counter. */
  ghost predicate Bounded(st: LineageState) {
    forall s :: s in st.tags ==> st.tags[s] <= st.current
  }

  /** JavaScript truthiness of `parents[k]`: present and not the empty string. */
  predicate Truthy(parents: seq<string>, k: nat) {
    k < |parents| && parents[k] != ""
  }

  /** `parents.map(p => tags.get(p)).find(b => b !== undefined)`, as the
      index (at or after `k`) of the first parent that has a lineage. */
  function FirstTaggedFrom(parents: seq<string>, tags: map<string, nat>, k: nat): (r: Option<nat>)
    requires k <= |parents|
    ensures r.Some? ==> k <= r.value < |parents| && parents[r.value] in tags
    ensures r.Some? ==> forall j :: k <= j < r.value ==> parents[j] !in tags
    ensures r.None? <==> forall j :: k <= j < |parents| ==> parents[j] !in tags
    decreases |parents| - k
  {
    if k == |parents| then None
    else if parents[k] in tags then Some(k)
    else FirstTaggedFrom(parents, tags, k + 1)
  }

  /** The lineage a commit is drawn in: its own tag if a descendant already
      gave it one, else the tag of its first tagged parent, else the counter
      (which is not advanced). */
  function ChooseLineage(st: LineageState, c: GitCommit): (b: nat)
    ensures Bounded(st) ==> b <= st.current
    ensures c.sha in st.tags ==> b == st.tags[c.sha]
  {
    if c.sha in st.tags then st.tags[c.sha]
    else match FirstTaggedFrom(c.parents, st.tags, 0)
      case Some(j) => st.tags[c.parents[j]]
      case None => st.current
  }

  datatype StepResult = StepResult(lineage: nat, next: LineageState)

  /** The tagging done for one commit: the first parent is (re)tagged with the
      commit's lineage; an untagged second parent of a merge gets a freshly
      minted lineage. The counter only moves for a merge, by one. */
  function Step(st: LineageState, c: GitCommit): (r: StepResult)
    ensures Bounded(st) ==> Bounded(r.next) && r.lineage <= r.next.current
    ensures st.current <= r.next.current <= st.current + (if c.IsMerge() then 1 else 0)
  {
    var b := ChooseLineage(st, c);
    var tags := if Truthy(c.parents, 0) then st.tags[c.parents[0] := b] else st.tags;
    if c.IsMerge() && Truthy(c.parents, 1) && c.parents[1] !in tags then
      StepResult(b, LineageState(tags[c.parents[1] := st.current + 1], st.current + 1))
    else
      StepResult(b, LineageState(tags, st.current))
  }

  /** What one step records: the first parent carries the commit's lineage
      (overwriting any earlier tag), a non-empty second parent of a merge is
      tagged afterwards, a lineage is minted exactly when that second parent
      was untagged and differs from the first, and no other tag changes. */
  lemma StepSpec(st: LineageState, c: GitCommit, r: StepResult)
    requires r == Step(st, c)
    ensures r.lineage == ChooseLineage(st, c)
    ensures Truthy(c.parents, 0) ==> c.parents[0] in r.next.tags && r.next.tags[c.parents[0]] == r.lineage
    ensures c.IsMerge() && Truthy(c.parents, 1) ==> c.parents[1] in r.next.tags
    ensures r.next.current == st.current + 1 <==>
      c.IsMerge() && Truthy(c.parents, 1) && c.parents[1] !in st.tags && c.parents[1] != c.parents[0]
    ensures r.next.current == st.current + 1 ==> r.next.tags[c.parents[1]] == r.next.current
    ensures forall s :: s in st.tags ==> s in r.next.tags
    ensures forall s :: s in st.tags && !(Truthy(c.parents, 0) && s == c.parents[0]) ==>
      r.next.tags[s] == st.tags[s]
    ensures forall s :: s in r.next.tags && s !in st.tags ==>
      (Truthy(c.parents, 0) && s == c.parents[0]) || (Truthy(c.parents, 1) && s == c.parents[1])
  {
  }

  // ---------------------------------------------------------------------------
  // Nodes and edges

  /** The node for commit `c` at row `row`, drawn in lineage `lineage`. */
  function MakeNode(c: GitCommit, row: nat, lineage: nat): (n: GraphNode)
    ensures Describes(n, c, row)
    ensures DrawnIn(n, lineage)
  {
    GraphNode(
      c.sha,
      if c.IsMerge() then MergeNode else CommitNode,
      Position(LaneBaseX + lineage * LaneWidth, row * RowHeight),
      NodeData(c, Some(BranchLabel(lineage)), ColorOf(lineage)))
  }

  /** The node-level facts that do not depend on lineage. */
  ghost predicate Describes(n: GraphNode, c: GitCommit, row: nat) {
    && n.id == c.sha
    && n.data.commit == c
    && n.position.y == row * RowHeight
    && (n.kind == MergeNode <==> c.IsMerge())
    && (n.kind == CommitNode <==> !c.IsMerge())
  }

  /** `nodes` are the nodes of `commits[from..]`, one per commit, in order. */
  ghost predicate DescribesAll(nodes: seq<GraphNode>, commits: seq<GitCommit>, from: nat) {
    && from + |nodes| == |commits|
    && forall j :: 0 <= j < |nodes| ==> Describes(nodes[j], commits[from + j], from + j)
  }

  /** `n` is drawn in lineage `l`: its lane, its colour and its label. */
  ghost predicate DrawnIn(n: GraphNode, l: nat) {
    && n.position.x == LaneBaseX + LaneWidth * l
    && n.data.color == BranchColors[l % |BranchColors|]
    && n.data.branch == Some("branch-" + NatToString(l))
  }

  /** Every node sits in one of the lanes `0..maxLineage`. */
  ghost predicate InLanes(nodes: seq<GraphNode>, maxLineage: nat) {
    forall j :: 0 <= j < |nodes| ==>
      LaneBaseX <= nodes[j].position.x <= LaneBaseX + LaneWidth * maxLineage
  }

  /** Every edge leaves a SHA of `sources` and enters a SHA of `targets`. */
  ghost predicate EdgesBetween(edges: seq<GraphEdge>, sources: set<string>, targets: set<string>) {
    forall e :: e in edges ==> e.source in sources && e.target in targets
  }

  /** The edge from commit `c` to its `k`-th parent. `tags` is the lineage
      map after `c`'s own tagging; a parent without a tag falls back to the
      commit's lineage. */
  function MakeEdge(c: GitCommit, k: nat, lineage: nat, tags: map<string, nat>): (e: GraphEdge)
    requires k < |c.parents|
    ensures e.source == c.sha && e.target == c.parents[k] && e.id == c.sha + "-" + c.parents[k]
    ensures e.kind == MergeEdge <==> k > 0
    ensures e.animated == Some(k > 0)
    ensures k == 0 ==> e.style == Some(EdgeStyle(ColorOf(lineage)))
    ensures k > 0 && c.parents[k] in tags ==> e.style == Some(EdgeStyle(ColorOf(tags[c.parents[k]])))
    ensures k > 0 && c.parents[k] !in tags ==> e.style == Some(EdgeStyle(ColorOf(lineage)))
  {
    var p := c.parents[k];
    var parentLineage := if p in tags then tags[p] else lineage;
    var stroke := if k == 0 then ColorOf(lineage) else ColorOf(parentLineage);
    GraphEdge(
      c.sha + "-" + p,
      c.sha,
      p,
      if k > 0 then MergeEdge else DefaultEdge,
      Some(EdgeStyle(stroke)),
      Some(k > 0))
  }

  /** The edges of `c` for parents `k..`, skipping parents not in `present`. */
  function ParentEdges(c: GitCommit, k: nat, lineage: nat, tags: map<string, nat>, present: set<string>)
    : (es: seq<GraphEdge>)
    requires k <= |c.parents|
    ensures |es| <= |c.parents| - k
    ensures forall e :: e in es ==>
      e.source == c.sha && e.target in present && e.id == c.sha + "-" + e.target
    decreases |c.parents| - k
  {
    if k == |c.parents| then []
    else
      (if c.parents[k] in present then [MakeEdge(c, k, lineage, tags)] else [])
      + ParentEdges(c, k + 1, lineage, tags, present)
  }

  /** `shaToIndex`'s key set: the SHAs of the commits. */
  function Shas(commits: seq<GitCommit>): set<string> {
    set c | c in commits :: c.sha
  }

  /** The number of merge commits in `commits`. */
  function MergeCount(commits: seq<GitCommit>): nat {
    if commits == [] then 0
    else (if commits[0].IsMerge() then 1 else 0) + MergeCount(commits[1..])
  }

  /** The pass over `commits[index..]`, starting from state `st`: the
      `forEach` body for each commit in turn, threading the lineage state. */
  function BuildFrom(commits: seq<GitCommit>, present: set<string>, index: nat, st: LineageState)
    : (g: CommitGraph)
    requires index <= |commits|
    ensures |g.nodes| == |commits| - index
    ensures DescribesAll(g.nodes, commits, index)
    decreases |commits| - index
  {
    if index == |commits| then CommitGraph([], [])
    else
      var s := Step(st, commits[index]);
      var rest := BuildFrom(commits, present, index + 1, s.next);
      CommitGraph(
        [MakeNode(commits[index], index, s.lineage)] + rest.nodes,
        ParentEdges(commits[index], 0, s.lineage, s.next.tags, present) + rest.edges)
  }

  /** The shape of the pass's output: one node per commit in order, lanes
      bounded by the counter plus the merges still to come, edges only from
      the remaining commits into `present`. */
  lemma {:induction false} BuildFromShape(commits: seq<GitCommit>, present: set<string>, index: nat, st: LineageState)
    requires index <= |commits|
    ensures DescribesAll(BuildFrom(commits, present, index, st).nodes, commits, index)
    ensures Bounded(st) ==>
      InLanes(BuildFrom(commits, present, index, st).nodes, st.current + MergeCount(commits[index..]))
    ensures EdgesBetween(BuildFrom(commits, present, index, st).edges, Shas(commits[index..]), present)
    decreases |commits| - index
  {
    if index < |commits| {
      var c := commits[index];
      var s := Step(st, c);
      var g := BuildFrom(commits, present, index, st);
      var rest := BuildFrom(commits, present, index + 1, s.next);
      BuildFromShape(commits, present, index + 1, s.next);
      assert commits[index..][1..] == commits[index + 1..];
      assert commits[index..][0] == c;
      assert g.nodes == [MakeNode(c, index, s.lineage)] + rest.nodes;
      assert g.edges == ParentEdges(c, 0, s.lineage, s.next.tags, present) + rest.edges;
      forall j | 1 <= j < |g.nodes|
        ensures g.nodes[j] == rest.nodes[j - 1]
      {
      }
    }
  }

  /** `buildCommitGraph(commits)`: one node per commit in input order, every
      node in a lane no further out than the number of merges, every edge
      between two of the commits; nothing for no commits. */
  function BuildCommitGraph(commits: seq<GitCommit>): (g: CommitGraph)
    ensures DescribesAll(g.nodes, commits, 0)
    ensures InLanes(g.nodes, MergeCount(commits))
    ensures EdgesBetween(g.edges, Shas(commits), Shas(commits))
    ensures commits == [] ==> g.nodes == [] && g.edges == []
  {
    BuildFromShape(commits, Shas(commits), 0, Initial);
    assert commits[0..] == commits;
    BuildFrom(commits, Shas(commits), 0, Initial)
  }

  // ---------------------------------------------------------------------------
  // Presentation helpers

  /** `shortenSha(sha)`: `sha.substring(0, 7)`. */
  function ShortenSha(sha: string): (r: string)
    ensures r <= sha
    ensures |r| == if |sha| < 7 then |sha| else 7
  {
    if |sha| <= 7 then sha else sha[..7]
  }

  const DefaultMaxLength: int := 50

  /** `truncateMessage(message, maxLength)`: the first line, cut to
      `maxLength` characters plus "..." when it is longer. A negative
      `maxLength` cuts to nothing, as `substring` clamps it to 0. */
  function TruncateMessage(message: string, maxLength: int): (r: string)
    ensures '\n' !in r
    ensures |r| <= (if maxLength < 0 then 0 else maxLength) + 3
    ensures var line := BeforeFirst(message, '\n');
      && (|line| <= maxLength ==> r == line)
      && (|line| > maxLength ==>
            && |r| == (if maxLength < 0 then 0 else maxLength) + 3
            && r[|r| - 3..] == "..."
            && r[..|r| - 3] <= line)
  {
    var firstLine := Split(message, '\n')[0];
    if |firstLine| <= maxLength then firstLine
    else firstLine[..if maxLength < 0 then 0 else maxLength] + "..."
  }

  /** `truncateMessage(message)` with its default limit. */
  function TruncateMessageDefault(message: string): (r: string)
    ensures |r| <= DefaultMaxLength + 3
  {
    TruncateMessage(message, DefaultMaxLength)
  }
}
