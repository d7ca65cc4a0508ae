/** What `buildCommitGraph` returns, stated per commit index and per
    (commit, parent) pair rather than through the pass that computes it. */
module GraphProperties {
  import opened Wrappers
  import opened GitTypes
  import opened JsString
  import opened GraphBuilder
  import opened LineageProperties

  /** A (commit index, parent index) pair that names a parent of `commits`. */
  predicate ValidPair(commits: seq<GitCommit>, p: (nat, nat)) {
    p.0 < |commits| && p.1 < |commits[p.0].parents|
  }

  /** Parent indices strictly increase along `ps`. */
  ghost predicate IncreasingParents(ps: seq<(nat, nat)>) {
    forall j1, j2 :: 0 <= j1 < j2 < |ps| ==> ps[j1].1 < ps[j2].1
  }

  /** Lexicographic order: by commit, then by parent index. */
  predicate PairBefore(a: (nat, nat), b: (nat, nat)) {
    a.0 < b.0 || (a.0 == b.0 && a.1 < b.1)
  }

  /** The pairs `(i, k)`, `k` from `k0` on, whose parent SHA is in `present`. */
  function ParentPairs(commits: seq<GitCommit>, present: set<string>, i: nat, k0: nat): (ps: seq<(nat, nat)>)
    requires i < |commits| && k0 <= |commits[i].parents|
    ensures forall j :: 0 <= j < |ps| ==> ps[j].0 == i && ps[j].1 < |commits[i].parents|
    ensures forall j :: 0 <= j < |ps| ==> ValidPair(commits, ps[j])
    decreases |commits[i].parents| - k0
  {
    if k0 == |commits[i].parents| then []
    else
      (if commits[i].parents[k0] in present then [(i, k0)] else [])
      + ParentPairs(commits, present, i, k0 + 1)
  }

  /** The pairs of commits `i0..` whose parent SHA is in `present`. */
  function PairsFrom(commits: seq<GitCommit>, present: set<string>, i0: nat): (ps: seq<(nat, nat)>)
    requires i0 <= |commits|
    ensures forall j :: 0 <= j < |ps| ==> ValidPair(commits, ps[j])
    decreases |commits| - i0
  {
    if i0 == |commits| then []
    else ParentPairs(commits, present, i0, 0) + PairsFrom(commits, present, i0 + 1)
  }

  /** Every (commit, parent) pair whose parent is among the commits, in
      commit order and then parent order. */
  function ResolvedPairs(commits: seq<GitCommit>): (ps: seq<(nat, nat)>)
    ensures forall j :: 0 <= j < |ps| ==> ValidPair(commits, ps[j])
  {
    PairsFrom(commits, Shas(commits), 0)
  }

  lemma {:induction false} ParentPairsSound(commits: seq<GitCommit>, present: set<string>, i: nat, k0: nat)
    requires i < |commits| && k0 <= |commits[i].parents|
    ensures forall p :: p in ParentPairs(commits, present, i, k0) ==>
      p.0 == i && k0 <= p.1 < |commits[i].parents| && commits[i].parents[p.1] in present
    decreases |commits[i].parents| - k0
  {
    if k0 < |commits[i].parents| {
      ParentPairsSound(commits, present, i, k0 + 1);
    }
  }

  lemma {:induction false} ParentPairsComplete(commits: seq<GitCommit>, present: set<string>, i: nat, k0: nat)
    requires i < |commits| && k0 <= |commits[i].parents|
    ensures forall k :: k0 <= k < |commits[i].parents| && commits[i].parents[k] in present ==>
      (i, k) in ParentPairs(commits, present, i, k0)
    decreases |commits[i].parents| - k0
  {
    if k0 < |commits[i].parents| {
      ParentPairsComplete(commits, present, i, k0 + 1);
    }
  }

  /** Putting a pair in front of increasing pairs with larger parent indices keeps them increasing. */
  lemma ConsIncreasing(p: (nat, nat), rest: seq<(nat, nat)>)
    requires IncreasingParents(rest)
    requires forall q :: q in rest ==> p.1 < q.1
    ensures IncreasingParents([p] + rest)
  {
    var ps := [p] + rest;
    forall j1, j2 | 0 <= j1 < j2 < |ps|
      ensures ps[j1].1 < ps[j2].1
    {
      assert ps[j2] == rest[j2 - 1];
      if j1 > 0 {
        assert ps[j1] == rest[j1 - 1];
      }
    }
  }

  lemma {:induction false} ParentPairsSorted(commits: seq<GitCommit>, present: set<string>, i: nat, k0: nat)
    requires i < |commits| && k0 <= |commits[i].parents|
    ensures IncreasingParents(ParentPairs(commits, present, i, k0))
    decreases |commits[i].parents| - k0
  {
    if k0 < |commits[i].parents| {
      ParentPairsSorted(commits, present, i, k0 + 1);
      ParentPairsSound(commits, present, i, k0 + 1);
      var rest := ParentPairs(commits, present, i, k0 + 1);
      if commits[i].parents[k0] in present {
        ConsIncreasing((i, k0), rest);
      }
    }
  }

  lemma {:induction false} PairsFromSound(commits: seq<GitCommit>, present: set<string>, i0: nat)
    requires i0 <= |commits|
    ensures forall p :: p in PairsFrom(commits, present, i0) ==>
      ValidPair(commits, p) && i0 <= p.0 && commits[p.0].parents[p.1] in present
    decreases |commits| - i0
  {
    if i0 < |commits| {
      ParentPairsSound(commits, present, i0, 0);
      PairsFromSound(commits, present, i0 + 1);
    }
  }

  lemma {:induction false} PairsFromComplete(commits: seq<GitCommit>, present: set<string>, i0: nat)
    requires i0 <= |commits|
    ensures forall i, k ::
      (i0 <= i < |commits| && 0 <= k < |commits[i].parents| && commits[i].parents[k] in present)
      ==> (i, k) in PairsFrom(commits, present, i0)
    decreases |commits| - i0
  {
    if i0 < |commits| {
      ParentPairsComplete(commits, present, i0, 0);
      PairsFromComplete(commits, present, i0 + 1);
    }
  }

  lemma {:induction false} PairsFromSorted(commits: seq<GitCommit>, present: set<string>, i0: nat)
    requires i0 <= |commits|
    ensures forall j1, j2 :: 0 <= j1 < j2 < |PairsFrom(commits, present, i0)| ==>
      PairBefore(PairsFrom(commits, present, i0)[j1], PairsFrom(commits, present, i0)[j2])
    decreases |commits| - i0
  {
    if i0 < |commits| {
      ParentPairsSound(commits, present, i0, 0);
      ParentPairsSorted(commits, present, i0, 0);
      PairsFromSound(commits, present, i0 + 1);
      PairsFromSorted(commits, present, i0 + 1);
      var head := ParentPairs(commits, present, i0, 0);
      var tail := PairsFrom(commits, present, i0 + 1);
      var ps := PairsFrom(commits, present, i0);
      assert ps == head + tail;
      forall j1, j2 | 0 <= j1 < j2 < |ps|
        ensures PairBefore(ps[j1], ps[j2])
      {
        if j2 < |head| {
          assert ps[j1] == head[j1] && ps[j2] == head[j2];
        } else if j1 < |head| {
          assert ps[j1] == head[j1] && ps[j1] in head;
          assert ps[j2] == tail[j2 - |head|] && ps[j2] in tail;
        } else {
          assert ps[j1] == tail[j1 - |head|] && ps[j2] == tail[j2 - |head|];
        }
      }
    }
  }

  /** The resolved pairs are exactly the pairs whose parent is among the
      commits, each once, ordered by commit and then by parent index. */
  lemma ResolvedPairsSpec(commits: seq<GitCommit>, ps: seq<(nat, nat)>)
    requires ps == ResolvedPairs(commits)
    ensures forall j :: 0 <= j < |ps| ==>
      ValidPair(commits, ps[j]) && commits[ps[j].0].parents[ps[j].1] in Shas(commits)
    ensures forall i, k ::
      (0 <= i < |commits| && 0 <= k < |commits[i].parents| && commits[i].parents[k] in Shas(commits))
      ==> (i, k) in ps
    ensures LexSorted(ps)
  {
    PairsFromSound(commits, Shas(commits), 0);
    PairsFromComplete(commits, Shas(commits), 0);
    PairsFromSorted(commits, Shas(commits), 0);
    forall j | 0 <= j < |ps|
      ensures ValidPair(commits, ps[j]) && commits[ps[j].0].parents[ps[j].1] in Shas(commits)
    {
      assert ps[j] in ps;
    }
  }

  /** `ps` is strictly increasing in commit-then-parent order. */
  ghost predicate LexSorted(ps: seq<(nat, nat)>) {
    forall j1, j2 :: 0 <= j1 < j2 < |ps| ==> PairBefore(ps[j1], ps[j2])
  }

  /** The node of `commits[i]`. */
  function NodeAt(commits: seq<GitCommit>, i: nat): GraphNode
    requires i < |commits|
  {
    MakeNode(commits[i], i, LineageAt(commits, i))
  }

  /** The edge for pair `(i, k)`, coloured from the tags after commit `i`. */
  function EdgeAt(commits: seq<GitCommit>, p: (nat, nat)): GraphEdge
    requires ValidPair(commits, p)
  {
    MakeEdge(commits[p.0], p.1, LineageAt(commits, p.0), StateAfter(commits, p.0 + 1).tags)
  }

  function EdgesOf(commits: seq<GitCommit>, ps: seq<(nat, nat)>): (es: seq<GraphEdge>)
    requires forall j :: 0 <= j < |ps| ==> ValidPair(commits, ps[j])
    ensures |es| == |ps|
  {
    seq(|ps|, j requires 0 <= j < |ps| => EdgeAt(commits, ps[j]))
  }

  function EdgeWith(commits: seq<GitCommit>, ls: seq<nat>, ts: seq<map<string, nat>>, p: (nat, nat)): GraphEdge
    requires |ls| == |commits| && |ts| == |commits| && ValidPair(commits, p)
  {
    MakeEdge(commits[p.0], p.1, ls[p.0], ts[p.0])
  }

  /** The edges of the pairs `ps`, pair `(i, k)` drawn with lineage `ls[i]`
      and tags `ts[i]`. */
  function EdgesWith(commits: seq<GitCommit>, ls: seq<nat>, ts: seq<map<string, nat>>, ps: seq<(nat, nat)>)
    : (es: seq<GraphEdge>)
    requires |ls| == |commits| && |ts| == |commits|
    requires forall j :: 0 <= j < |ps| ==> ValidPair(commits, ps[j])
    ensures |es| == |ps|
  {
    seq(|ps|, j requires 0 <= j < |ps| => EdgeWith(commits, ls, ts, ps[j]))
  }

  lemma EdgesWithAppend(
    commits: seq<GitCommit>, ls: seq<nat>, ts: seq<map<string, nat>>, a: seq<(nat, nat)>, b: seq<(nat, nat)>)
    requires |ls| == |commits| && |ts| == |commits|
    requires forall j :: 0 <= j < |a| ==> ValidPair(commits, a[j])
    requires forall j :: 0 <= j < |b| ==> ValidPair(commits, b[j])
    ensures EdgesWith(commits, ls, ts, a + b) == EdgesWith(commits, ls, ts, a) + EdgesWith(commits, ls, ts, b)
  {
    var ab := a + b;
    assert forall j :: 0 <= j < |ab| ==> ValidPair(commits, ab[j]);
    assert EdgesWith(commits, ls, ts, ab) == EdgesWith(commits, ls, ts, a) + EdgesWith(commits, ls, ts, b);
  }

  /** The edges `MakeEdge` builds for commit `c` and the pairs `ps`. */
  function EdgesFor(c: GitCommit, ps: seq<(nat, nat)>, l: nat, t: map<string, nat>): (es: seq<GraphEdge>)
    requires forall j :: 0 <= j < |ps| ==> ps[j].1 < |c.parents|
    ensures |es| == |ps|
  {
    seq(|ps|, j requires 0 <= j < |ps| => MakeEdge(c, ps[j].1, l, t))
  }

  lemma {:induction false} ParentEdgesAs(
    commits: seq<GitCommit>, present: set<string>, i: nat, k0: nat, l: nat, t: map<string, nat>)
    requires i < |commits| && k0 <= |commits[i].parents|
    ensures ParentEdges(commits[i], k0, l, t, present) == EdgesFor(commits[i], ParentPairs(commits, present, i, k0), l, t)
    decreases |commits[i].parents| - k0
  {
    if k0 < |commits[i].parents| {
      ParentEdgesAs(commits, present, i, k0 + 1, l, t);
      if commits[i].parents[k0] in present {
        ParentEdgesKept(commits, present, i, k0, l, t);
      } else {
        ParentEdgesSkipped(commits, present, i, k0, l, t);
      }
    }
  }

  /** One step of `ParentEdgesAs` for a parent in `present`. */
  lemma ParentEdgesKept(
    commits: seq<GitCommit>, present: set<string>, i: nat, k0: nat, l: nat, t: map<string, nat>)
    requires i < |commits| && k0 < |commits[i].parents| && commits[i].parents[k0] in present
    requires ParentEdges(commits[i], k0 + 1, l, t, present)
      == EdgesFor(commits[i], ParentPairs(commits, present, i, k0 + 1), l, t)
    ensures ParentEdges(commits[i], k0, l, t, present) == EdgesFor(commits[i], ParentPairs(commits, present, i, k0), l, t)
  {
    var c := commits[i];
    var rest := ParentPairs(commits, present, i, k0 + 1);
    assert ParentPairs(commits, present, i, k0) == [(i, k0)] + rest;
    assert ParentEdges(c, k0, l, t, present) == [MakeEdge(c, k0, l, t)] + ParentEdges(c, k0 + 1, l, t, present);
    EdgesForCons(c, (i, k0), rest, l, t);
  }

  /** One step of `ParentEdgesAs` for a parent outside `present`. */
  lemma ParentEdgesSkipped(
    commits: seq<GitCommit>, present: set<string>, i: nat, k0: nat, l: nat, t: map<string, nat>)
    requires i < |commits| && k0 < |commits[i].parents| && commits[i].parents[k0] !in present
    requires ParentEdges(commits[i], k0 + 1, l, t, present)
      == EdgesFor(commits[i], ParentPairs(commits, present, i, k0 + 1), l, t)
    ensures ParentEdges(commits[i], k0, l, t, present) == EdgesFor(commits[i], ParentPairs(commits, present, i, k0), l, t)
  {
    assert ParentPairs(commits, present, i, k0) == ParentPairs(commits, present, i, k0 + 1);
    assert ParentEdges(commits[i], k0, l, t, present) == ParentEdges(commits[i], k0 + 1, l, t, present);
  }

  lemma EdgesForCons(c: GitCommit, p: (nat, nat), ps: seq<(nat, nat)>, l: nat, t: map<string, nat>)
    requires p.1 < |c.parents|
    requires forall j :: 0 <= j < |ps| ==> ps[j].1 < |c.parents|
    ensures EdgesFor(c, [p] + ps, l, t) == [MakeEdge(c, p.1, l, t)] + EdgesFor(c, ps, l, t)
  {
    var qs := [p] + ps;
    assert forall j :: 0 <= j < |qs| ==> qs[j].1 < |c.parents|;
    assert EdgesFor(c, [p], l, t) == [MakeEdge(c, p.1, l, t)];
    assert EdgesFor(c, qs, l, t) == EdgesFor(c, [p], l, t) + EdgesFor(c, ps, l, t);
  }


  lemma ParentEdgesMatch(
    commits: seq<GitCommit>, present: set<string>, ls: seq<nat>, ts: seq<map<string, nat>>, i: nat)
    requires |ls| == |commits| && |ts| == |commits| && i < |commits|
    ensures ParentEdges(commits[i], 0, ls[i], ts[i], present)
      == EdgesWith(commits, ls, ts, ParentPairs(commits, present, i, 0))
  {
    ParentEdgesAs(commits, present, i, 0, ls[i], ts[i]);
    var ps := ParentPairs(commits, present, i, 0);
    assert EdgesFor(commits[i], ps, ls[i], ts[i]) == EdgesWith(commits, ls, ts, ps);
  }

  /** The lineage of every commit, in input order. */
  function Lineages(commits: seq<GitCommit>): (ls: seq<nat>)
    ensures |ls| == |commits|
  {
    seq(|commits|, i requires 0 <= i < |commits| => LineageAt(commits, i))
  }

  /** The tags in force once each commit has been processed. */
  function TagsAfter(commits: seq<GitCommit>): (ts: seq<map<string, nat>>)
    ensures |ts| == |commits|
  {
    seq(|commits|, i requires 0 <= i < |commits| => Step(StateAfter(commits, i), commits[i]).next.tags)
  }

  /** The step at commit `i` yields `Lineages(commits)[i]` and `TagsAfter(commits)[i]`. */
  lemma StepAt(commits: seq<GitCommit>, i: nat, st: LineageState)
    requires i < |commits| && st == StateAfter(commits, i)
    ensures Lineages(commits)[i] == Step(st, commits[i]).lineage
    ensures TagsAfter(commits)[i] == Step(st, commits[i]).next.tags
  {
    assert Lineages(commits)[i] == LineageAt(commits, i);
  }

  /** The nodes of `commits[i0..]` drawn in the lineages `ls`. */
  function NodesFrom(commits: seq<GitCommit>, ls: seq<nat>, i0: nat): (ns: seq<GraphNode>)
    requires |ls| == |commits| && i0 <= |commits|
    ensures |ns| == |commits| - i0
    decreases |commits| - i0
  {
    if i0 == |commits| then [] else [MakeNode(commits[i0], i0, ls[i0])] + NodesFrom(commits, ls, i0 + 1)
  }

  /** The edges of `commits[i0..]`, commit `i` drawn with lineage `ls[i]`
      and tags `ts[i]`. */
  function EdgesFrom(commits: seq<GitCommit>, present: set<string>, ls: seq<nat>, ts: seq<map<string, nat>>, i0: nat)
    : seq<GraphEdge>
    requires |ls| == |commits| && |ts| == |commits| && i0 <= |commits|
    decreases |commits| - i0
  {
    if i0 == |commits| then []
    else ParentEdges(commits[i0], 0, ls[i0], ts[i0], present) + EdgesFrom(commits, present, ls, ts, i0 + 1)
  }

  lemma {:induction false} BuildFromNodes(commits: seq<GitCommit>, present: set<string>, i0: nat, st: LineageState, g: CommitGraph)
    requires i0 <= |commits| && st == StateAfter(commits, i0)
    requires g == BuildFrom(commits, present, i0, st)
    ensures g.nodes == NodesFrom(commits, Lineages(commits), i0)
    decreases |commits| - i0
  {
    if i0 < |commits| {
      var s := Step(st, commits[i0]);
      var rest := BuildFrom(commits, present, i0 + 1, s.next);
      assert g.nodes == [MakeNode(commits[i0], i0, s.lineage)] + rest.nodes;
      BuildFromNodes(commits, present, i0 + 1, s.next, rest);
      StepAt(commits, i0, st);
    }
  }

  lemma {:induction false} BuildFromEdges(commits: seq<GitCommit>, present: set<string>, i0: nat, st: LineageState, g: CommitGraph)
    requires i0 <= |commits| && st == StateAfter(commits, i0)
    requires g == BuildFrom(commits, present, i0, st)
    ensures g.edges == EdgesFrom(commits, present, Lineages(commits), TagsAfter(commits), i0)
    decreases |commits| - i0
  {
    if i0 < |commits| {
      var s := Step(st, commits[i0]);
      var rest := BuildFrom(commits, present, i0 + 1, s.next);
      assert g.edges == ParentEdges(commits[i0], 0, s.lineage, s.next.tags, present) + rest.edges;
      BuildFromEdges(commits, present, i0 + 1, s.next, rest);
      StepAt(commits, i0, st);
    }
  }

  lemma {:induction false} NodesFromIndex(commits: seq<GitCommit>, ls: seq<nat>, i0: nat)
    requires |ls| == |commits| && i0 <= |commits|
    ensures forall j :: 0 <= j < |commits| - i0 ==>
      NodesFrom(commits, ls, i0)[j] == MakeNode(commits[i0 + j], i0 + j, ls[i0 + j])
    decreases |commits| - i0
  {
    if i0 < |commits| {
      NodesFromIndex(commits, ls, i0 + 1);
      var ns := NodesFrom(commits, ls, i0);
      var rest := NodesFrom(commits, ls, i0 + 1);
      assert ns == [MakeNode(commits[i0], i0, ls[i0])] + rest;
      forall j | 0 <= j < |ns|
        ensures ns[j] == MakeNode(commits[i0 + j], i0 + j, ls[i0 + j])
      {
        if j > 0 {
          assert ns[j] == rest[j - 1];
        }
      }
    }
  }

  lemma {:induction false} EdgesFromPairs(
    commits: seq<GitCommit>, present: set<string>, ls: seq<nat>, ts: seq<map<string, nat>>, i0: nat)
    requires |ls| == |commits| && |ts| == |commits| && i0 <= |commits|
    ensures EdgesFrom(commits, present, ls, ts, i0) == EdgesWith(commits, ls, ts, PairsFrom(commits, present, i0))
    decreases |commits| - i0
  {
    if i0 < |commits| {
      var head := ParentPairs(commits, present, i0, 0);
      var tail := PairsFrom(commits, present, i0 + 1);
      calc {
        EdgesFrom(commits, present, ls, ts, i0);
        ParentEdges(commits[i0], 0, ls[i0], ts[i0], present) + EdgesFrom(commits, present, ls, ts, i0 + 1);
        { ParentEdgesMatch(commits, present, ls, ts, i0);
          EdgesFromPairs(commits, present, ls, ts, i0 + 1); }
        EdgesWith(commits, ls, ts, head) + EdgesWith(commits, ls, ts, tail);
        { EdgesWithAppend(commits, ls, ts, head, tail); }
        EdgesWith(commits, ls, ts, head + tail);
      }
    }
  }

  /** Drawn with the pass's own lineages and tags, the edges of `ps` are
      the closed-form edges. */
  lemma EdgesWithClosedForm(commits: seq<GitCommit>, ps: seq<(nat, nat)>)
    requires forall j :: 0 <= j < |ps| ==> ValidPair(commits, ps[j])
    ensures EdgesWith(commits, Lineages(commits), TagsAfter(commits), ps) == EdgesOf(commits, ps)
  {
    var ls := Lineages(commits);
    var ts := TagsAfter(commits);
    forall j | 0 <= j < |ps|
      ensures EdgesWith(commits, ls, ts, ps)[j] == EdgesOf(commits, ps)[j]
    {
      assert ls[ps[j].0] == LineageAt(commits, ps[j].0);
      assert ts[ps[j].0] == StateAfter(commits, ps[j].0 + 1).tags;
    }
  }

  /** The nodes are the commits, in input order, each drawn in the lineage
      the pass infers for it; the edges are exactly one per resolved
      (commit, parent) pair, in that pair order. */
  lemma BuildCommitGraphSpec(commits: seq<GitCommit>, g: CommitGraph)
    requires g == BuildCommitGraph(commits)
    ensures |g.nodes| == |commits|
    ensures DescribesAll(g.nodes, commits, 0)
    ensures forall i :: 0 <= i < |g.nodes| ==> DrawnIn(g.nodes[i], LineageAt(commits, i))
    ensures g.edges == EdgesOf(commits, ResolvedPairs(commits))
  {
    assert StateAfter(commits, 0) == Initial;
    BuildFromNodes(commits, Shas(commits), 0, Initial, g);
    BuildFromEdges(commits, Shas(commits), 0, Initial, g);
    NodesFromIndex(commits, Lineages(commits), 0);
    EdgesFromPairs(commits, Shas(commits), Lineages(commits), TagsAfter(commits), 0);
    EdgesWithClosedForm(commits, ResolvedPairs(commits));
    forall i | 0 <= i < |g.nodes|
      ensures DrawnIn(g.nodes[i], LineageAt(commits, i))
    {
      assert g.nodes[i] == MakeNode(commits[i], i, Lineages(commits)[i]);
    }
  }

  /** The edge for pair `(i, k)`: from the commit to its parent, id
      `child-parent`; the first parent's edge is a plain edge in the
      commit's colour, later parents' edges are animated merge edges in the
      parent's lineage colour, or the commit's when the parent has no tag,
      which cannot happen for a non-empty second parent. */
  lemma EdgeAtSpec(commits: seq<GitCommit>, i: nat, k: nat, e: GraphEdge)
    requires ValidPair(commits, (i, k))
    requires e == EdgeAt(commits, (i, k))
    ensures e.source == commits[i].sha
    ensures e.target == commits[i].parents[k]
    ensures e.id == commits[i].sha + "-" + commits[i].parents[k]
    ensures e.kind == MergeEdge <==> k > 0
    ensures e.animated == Some(k > 0)
    ensures k == 0 ==> e.style == Some(EdgeStyle(NodeAt(commits, i).data.color))
    ensures k > 0 && commits[i].parents[k] in StateAfter(commits, i + 1).tags ==>
      e.style == Some(EdgeStyle(ColorOf(StateAfter(commits, i + 1).tags[commits[i].parents[k]])))
    ensures k > 0 && commits[i].parents[k] !in StateAfter(commits, i + 1).tags ==>
      e.style == Some(EdgeStyle(NodeAt(commits, i).data.color))
    ensures k == 1 && commits[i].parents[1] != "" ==> commits[i].parents[1] in StateAfter(commits, i + 1).tags
  {
  }

  /** Node ids are exactly the commit SHAs. */
  lemma NodeIdsAreShas(commits: seq<GitCommit>, g: CommitGraph)
    requires g == BuildCommitGraph(commits)
    ensures (set n | n in g.nodes :: n.id) == Shas(commits)
  {
    forall s | s in Shas(commits)
      ensures s in (set n | n in g.nodes :: n.id)
    {
      var i :| 0 <= i < |commits| && commits[i].sha == s;
      assert g.nodes[i].id == s;
    }
  }

  /** A parent outside the input window is the target of no edge. */
  lemma WindowedParentHasNoEdge(commits: seq<GitCommit>, parent: string)
    requires parent !in Shas(commits)
    ensures forall e :: e in BuildCommitGraph(commits).edges ==> e.target != parent
  {
  }
}
