/** Worked examples: small commit histories and inputs whose results the
    model pins down completely. */
module Scenarios {
  import opened Wrappers
  import opened GitTypes
  import opened GraphBuilder
  import opened LineageProperties
  import opened GraphProperties
  import opened SearchInput
  import opened JsString

  /** A commit that carries only what the builder reads. */
  function Commit(sha: string, parents: seq<string>): GitCommit {
    GitCommit(sha, "", Author("", "", "", None), parents, "")
  }

  /** Given the outcome of every step, the states the pass goes through are
      the given ones. */
  lemma {:induction false} StatesFollow(commits: seq<GitCommit>, sts: seq<LineageState>, ls: seq<nat>, n: nat)
    requires |sts| == |commits| + 1 && |ls| == |commits| && sts[0] == Initial && n <= |commits|
    requires forall i :: 0 <= i < |commits| ==> Step(sts[i], commits[i]) == StepResult(ls[i], sts[i + 1])
    ensures StateAfter(commits, n) == sts[n]
    decreases n
  {
    if n > 0 {
      StatesFollow(commits, sts, ls, n - 1);
    }
  }

  /** The lineage pass over `[C3(C2), C2(C1), C1()]`: each commit hands
      lineage 0 on to its parent. */
  lemma LinearChainSteps(commits: seq<GitCommit>, sts: seq<LineageState>, ls: seq<nat>, ts: seq<map<string, nat>>)
    requires commits == [Commit("c3", ["c2"]), Commit("c2", ["c1"]), Commit("c1", [])]
    requires sts == [Initial, LineageState(map["c2" := 0], 0),
                     LineageState(map["c2" := 0, "c1" := 0], 0),
                     LineageState(map["c2" := 0, "c1" := 0], 0)]
    requires ls == [0, 0, 0]
    requires ts == [sts[1].tags, sts[2].tags, sts[3].tags]
    ensures forall i :: 0 <= i < |commits| ==> Step(sts[i], commits[i]) == StepResult(ls[i], sts[i + 1])
    ensures forall i :: 0 <= i < |commits| ==> ts[i] == sts[i + 1].tags
  {
    assert Step(sts[0], commits[0]) == StepResult(ls[0], sts[1]);
    assert Step(sts[1], commits[1]) == StepResult(ls[1], sts[2]);
    assert Step(sts[2], commits[2]) == StepResult(ls[2], sts[3]);
  }

  /** `[C3(C2), C2(C1), C1()]`: all three commits are drawn in lineage 0. */
  lemma LinearChain(commits: seq<GitCommit>)
    requires commits == [Commit("c3", ["c2"]), Commit("c2", ["c1"]), Commit("c1", [])]
    ensures forall i :: 0 <= i < |commits| ==> LineageAt(commits, i) == 0
    ensures StateAfter(commits, |commits|).current == 0
  {
    var st1 := LineageState(map["c2" := 0], 0);
    var st2 := LineageState(map["c2" := 0, "c1" := 0], 0);
    var sts := [Initial, st1, st2, st2];
    var ls := [0, 0, 0];
    LinearChainSteps(commits, sts, ls, [st1.tags, st2.tags, st2.tags]);
    forall i | 0 <= i < |commits|
      ensures LineageAt(commits, i) == 0
    {
      StatesFollow(commits, sts, ls, i);
    }
    StatesFollow(commits, sts, ls, 3);
  }

  /** The edges of a three-commit history, spelled out. */
  lemma EdgesFromThree(commits: seq<GitCommit>, present: set<string>, ls: seq<nat>, ts: seq<map<string, nat>>)
    requires |commits| == 3 && |ls| == 3 && |ts| == 3
    ensures EdgesFrom(commits, present, ls, ts, 0)
      == ParentEdges(commits[0], 0, ls[0], ts[0], present) + ParentEdges(commits[1], 0, ls[1], ts[1], present)
         + ParentEdges(commits[2], 0, ls[2], ts[2], present)
  {
    var e3 := EdgesFrom(commits, present, ls, ts, 3);
    var e2 := EdgesFrom(commits, present, ls, ts, 2);
    var e1 := EdgesFrom(commits, present, ls, ts, 1);
    assert e3 == [];
    assert e2 == ParentEdges(commits[2], 0, ls[2], ts[2], present) + e3;
    assert e1 == ParentEdges(commits[1], 0, ls[1], ts[1], present) + e2;
  }

  /** The chain's two plain edges, both in the colour of lineage 0. */
  lemma LinearChainEdges(commits: seq<GitCommit>)
    requires commits == [Commit("c3", ["c2"]), Commit("c2", ["c1"]), Commit("c1", [])]
    ensures BuildCommitGraph(commits).edges == [
      GraphEdge("c3-c2", "c3", "c2", DefaultEdge, Some(EdgeStyle("#a855f7")), Some(false)),
      GraphEdge("c2-c1", "c2", "c1", DefaultEdge, Some(EdgeStyle("#a855f7")), Some(false))]
  {
    var present := Shas(commits);
    var st1 := LineageState(map["c2" := 0], 0);
    var st2 := LineageState(map["c2" := 0, "c1" := 0], 0);
    var sts := [Initial, st1, st2, st2];
    var ls := [0, 0, 0];
    var ts := [st1.tags, st2.tags, st2.tags];
    LinearChainSteps(commits, sts, ls, ts);
    BuildFromSteps(commits, present, sts, ls, ts, 0);
    EdgesFromThree(commits, present, ls, ts);
    LinearChainParentEdges(commits, present, ts);
  }

  /** Which parent edges each commit of the chain contributes, field by field. */
  lemma LinearChainParentEdges(commits: seq<GitCommit>, present: set<string>, ts: seq<map<string, nat>>)
    requires commits == [Commit("c3", ["c2"]), Commit("c2", ["c1"]), Commit("c1", [])]
    requires present == Shas(commits)
    requires |ts| == 3
    ensures ParentEdges(commits[0], 0, 0, ts[0], present)
      == [GraphEdge("c3-c2", "c3", "c2", DefaultEdge, Some(EdgeStyle("#a855f7")), Some(false))]
    ensures ParentEdges(commits[1], 0, 0, ts[1], present)
      == [GraphEdge("c2-c1", "c2", "c1", DefaultEdge, Some(EdgeStyle("#a855f7")), Some(false))]
    ensures ParentEdges(commits[2], 0, 0, ts[2], present) == []
  {
    assert commits[1] in commits && commits[2] in commits;
    assert "c2" in present && "c1" in present;
    assert ColorOf(0) == "#a855f7";
    assert "c3" + "-" + "c2" == "c3-c2";
    assert "c2" + "-" + "c1" == "c2-c1";
  }

  /** Given the outcome of every step from `i0` on, the pass builds the
      nodes and edges those outcomes determine. */
  lemma {:induction false} BuildFromSteps(commits: seq<GitCommit>, present: set<string>,
                                          sts: seq<LineageState>, ls: seq<nat>, ts: seq<map<string, nat>>, i0: nat)
    requires |sts| == |commits| + 1 && |ls| == |commits| && |ts| == |commits| && i0 <= |commits|
    requires forall i :: i0 <= i < |commits| ==> Step(sts[i], commits[i]) == StepResult(ls[i], sts[i + 1])
    requires forall i :: i0 <= i < |commits| ==> ts[i] == sts[i + 1].tags
    ensures BuildFrom(commits, present, i0, sts[i0])
      == CommitGraph(NodesFrom(commits, ls, i0), EdgesFrom(commits, present, ls, ts, i0))
    decreases |commits| - i0
  {
    if i0 < |commits| {
      BuildFromSteps(commits, present, sts, ls, ts, i0 + 1);
    }
  }

  /** The nodes of a four-commit history, spelled out. */
  lemma NodesFromFour(commits: seq<GitCommit>, ls: seq<nat>)
    requires |commits| == 4 && |ls| == 4
    ensures NodesFrom(commits, ls, 0)
      == [MakeNode(commits[0], 0, ls[0]), MakeNode(commits[1], 1, ls[1]),
          MakeNode(commits[2], 2, ls[2]), MakeNode(commits[3], 3, ls[3])]
  {
    var n4 := NodesFrom(commits, ls, 4);
    var n3 := NodesFrom(commits, ls, 3);
    var n2 := NodesFrom(commits, ls, 2);
    var n1 := NodesFrom(commits, ls, 1);
    assert n4 == [];
    assert n3 == [MakeNode(commits[3], 3, ls[3])] + n4;
    assert n2 == [MakeNode(commits[2], 2, ls[2])] + n3;
    assert n1 == [MakeNode(commits[1], 1, ls[1])] + n2;
  }

  /** The edges of a four-commit history, spelled out. */
  lemma EdgesFromFour(commits: seq<GitCommit>, present: set<string>, ls: seq<nat>, ts: seq<map<string, nat>>)
    requires |commits| == 4 && |ls| == 4 && |ts| == 4
    ensures EdgesFrom(commits, present, ls, ts, 0)
      == ParentEdges(commits[0], 0, ls[0], ts[0], present) + ParentEdges(commits[1], 0, ls[1], ts[1], present)
         + ParentEdges(commits[2], 0, ls[2], ts[2], present) + ParentEdges(commits[3], 0, ls[3], ts[3], present)
  {
    var e4 := EdgesFrom(commits, present, ls, ts, 4);
    var e3 := EdgesFrom(commits, present, ls, ts, 3);
    var e2 := EdgesFrom(commits, present, ls, ts, 2);
    var e1 := EdgesFrom(commits, present, ls, ts, 1);
    assert e4 == [];
    assert e3 == ParentEdges(commits[3], 0, ls[3], ts[3], present) + e4;
    assert e2 == ParentEdges(commits[2], 0, ls[2], ts[2], present) + e3;
    assert e1 == ParentEdges(commits[1], 0, ls[1], ts[1], present) + e2;
  }

  /** The lineage pass over the diamond: `M` mints lineage 1 for `B`, which
      then retags `Root`. */
  lemma MergeDiamondSteps(commits: seq<GitCommit>, sts: seq<LineageState>, ls: seq<nat>, ts: seq<map<string, nat>>)
    requires commits == [Commit("m", ["a", "b"]), Commit("a", ["root"]), Commit("b", ["root"]), Commit("root", [])]
    requires sts == [Initial, LineageState(map["a" := 0, "b" := 1], 1),
                     LineageState(map["a" := 0, "b" := 1, "root" := 0], 1),
                     LineageState(map["a" := 0, "b" := 1, "root" := 1], 1),
                     LineageState(map["a" := 0, "b" := 1, "root" := 1], 1)]
    requires ls == [0, 0, 1, 1]
    requires ts == [sts[1].tags, sts[2].tags, sts[3].tags, sts[4].tags]
    ensures forall i :: 0 <= i < |commits| ==> Step(sts[i], commits[i]) == StepResult(ls[i], sts[i + 1])
    ensures forall i :: 0 <= i < |commits| ==> ts[i] == sts[i + 1].tags
  {
    assert Step(sts[0], commits[0]) == StepResult(ls[0], sts[1]);
    assert Step(sts[1], commits[1]) == StepResult(ls[1], sts[2]);
    assert Step(sts[2], commits[2]) == StepResult(ls[2], sts[3]);
    assert Step(sts[3], commits[3]) == StepResult(ls[3], sts[4]);
  }

  /** `[M(A, B), A(Root), B(Root), Root()]`: `B` gets a second lineage, the
      edge to it is an animated merge edge in its colour, and both edges
      into `Root` are there. */
  lemma MergeDiamond(commits: seq<GitCommit>)
    requires commits == [Commit("m", ["a", "b"]), Commit("a", ["root"]), Commit("b", ["root"]), Commit("root", [])]
    ensures var g := BuildCommitGraph(commits);
      && g.nodes == [
           MakeNode(commits[0], 0, 0), MakeNode(commits[1], 1, 0),
           MakeNode(commits[2], 2, 1), MakeNode(commits[3], 3, 1)]
      && g.edges == [
           GraphEdge("m-a", "m", "a", DefaultEdge, Some(EdgeStyle("#a855f7")), Some(false)),
           GraphEdge("m-b", "m", "b", MergeEdge, Some(EdgeStyle("#06b6d4")), Some(true)),
           GraphEdge("a-root", "a", "root", DefaultEdge, Some(EdgeStyle("#a855f7")), Some(false)),
           GraphEdge("b-root", "b", "root", DefaultEdge, Some(EdgeStyle("#06b6d4")), Some(false))]
  {
    var present := Shas(commits);
    var st1 := LineageState(map["a" := 0, "b" := 1], 1);
    var st2 := LineageState(map["a" := 0, "b" := 1, "root" := 0], 1);
    var st3 := LineageState(map["a" := 0, "b" := 1, "root" := 1], 1);
    var sts := [Initial, st1, st2, st3, st3];
    var ls := [0, 0, 1, 1];
    var ts := [st1.tags, st2.tags, st3.tags, st3.tags];
    MergeDiamondSteps(commits, sts, ls, ts);
    BuildFromSteps(commits, present, sts, ls, ts, 0);
    NodesFromFour(commits, ls);
    EdgesFromFour(commits, present, ls, ts);
    MergeDiamondEdges(commits, present, st1, st2, st3);
    MergeDiamondEdgeValues(commits, st1, st2, st3);
  }

  /** The four diamond edges, field by field. */
  lemma MergeDiamondEdgeValues(commits: seq<GitCommit>, st1: LineageState, st2: LineageState, st3: LineageState)
    requires commits == [Commit("m", ["a", "b"]), Commit("a", ["root"]), Commit("b", ["root"]), Commit("root", [])]
    requires st1 == LineageState(map["a" := 0, "b" := 1], 1)
    requires st2 == LineageState(map["a" := 0, "b" := 1, "root" := 0], 1)
    requires st3 == LineageState(map["a" := 0, "b" := 1, "root" := 1], 1)
    ensures MakeEdge(commits[0], 0, 0, st1.tags)
      == GraphEdge("m-a", "m", "a", DefaultEdge, Some(EdgeStyle("#a855f7")), Some(false))
    ensures MakeEdge(commits[0], 1, 0, st1.tags)
      == GraphEdge("m-b", "m", "b", MergeEdge, Some(EdgeStyle("#06b6d4")), Some(true))
    ensures MakeEdge(commits[1], 0, 0, st2.tags)
      == GraphEdge("a-root", "a", "root", DefaultEdge, Some(EdgeStyle("#a855f7")), Some(false))
    ensures MakeEdge(commits[2], 0, 1, st3.tags)
      == GraphEdge("b-root", "b", "root", DefaultEdge, Some(EdgeStyle("#06b6d4")), Some(false))
  {
    assert "m" + "-" + "a" == "m-a" && "m" + "-" + "b" == "m-b";
    assert "a" + "-" + "root" == "a-root" && "b" + "-" + "root" == "b-root";
  }

  /** Which parent edges each commit of the diamond contributes. */
  lemma MergeDiamondEdges(commits: seq<GitCommit>, present: set<string>,
                          st1: LineageState, st2: LineageState, st3: LineageState)
    requires commits == [Commit("m", ["a", "b"]), Commit("a", ["root"]), Commit("b", ["root"]), Commit("root", [])]
    requires present == Shas(commits)
    requires st1 == LineageState(map["a" := 0, "b" := 1], 1)
    requires st2 == LineageState(map["a" := 0, "b" := 1, "root" := 0], 1)
    requires st3 == LineageState(map["a" := 0, "b" := 1, "root" := 1], 1)
    ensures ParentEdges(commits[0], 0, 0, st1.tags, present)
      == [MakeEdge(commits[0], 0, 0, st1.tags), MakeEdge(commits[0], 1, 0, st1.tags)]
    ensures ParentEdges(commits[1], 0, 0, st2.tags, present) == [MakeEdge(commits[1], 0, 0, st2.tags)]
    ensures ParentEdges(commits[2], 0, 1, st3.tags, present) == [MakeEdge(commits[2], 0, 1, st3.tags)]
    ensures ParentEdges(commits[3], 0, 1, st3.tags, present) == []
  {
    assert commits[1] in commits && commits[2] in commits && commits[3] in commits;
    assert "a" in present && "b" in present && "root" in present;
    assert ParentEdges(commits[0], 1, 0, st1.tags, present) == [MakeEdge(commits[0], 1, 0, st1.tags)];
  }

  /** A window that cuts history: the parent outside it gets no edge and no node. */
  lemma TruncatedWindow(commits: seq<GitCommit>)
    requires commits == [Commit("c2", ["c1"]), Commit("c1", ["c0"])]
    ensures var g := BuildCommitGraph(commits);
      && |g.nodes| == 2
      && g.edges == [GraphEdge("c2-c1", "c2", "c1", DefaultEdge, Some(EdgeStyle("#a855f7")), Some(false))]
  {
    var present := Shas(commits);
    assert commits[1] in commits;
    assert "c1" in present;
    assert "c0" !in present;
    var st1 := LineageState(map["c1" := 0], 0);
    var st2 := LineageState(map["c1" := 0, "c0" := 0], 0);
    assert Step(Initial, commits[0]) == StepResult(0, st1);
    assert Step(st1, commits[1]) == StepResult(0, st2);
    assert BuildFrom(commits, present, 2, st2) == CommitGraph([], []);
    assert ParentEdges(commits[1], 1, 0, st2.tags, present) == [];
    assert ParentEdges(commits[1], 0, 0, st2.tags, present) == [];
    var g1 := BuildFrom(commits, present, 1, st1);
    assert g1.edges == [];
    assert ParentEdges(commits[0], 0, 0, st1.tags, present) == [MakeEdge(commits[0], 0, 0, st1.tags)];
    var g0 := BuildFrom(commits, present, 0, Initial);
    assert g0.edges == [MakeEdge(commits[0], 0, 0, st1.tags)];
    assert ColorOf(0) == "#a855f7";
    assert "c2" + "-" + "c1" == "c2-c1";
  }

  lemma ShortShas()
    ensures ShortenSha("abc1234567890") == "abc1234"
    ensures ShortenSha("abc") == "abc"
  {
  }

  lemma TruncatedLongLine()
    ensures TruncateMessage("Refactor graph layout", 8) == "Refactor..."
  {
    var line := "Refactor graph layout";
    BeforeFirstOf(line, '\n', "");
    assert line + "" == line;
    var r := TruncateMessage(line, 8);
    assert r[..8] == line[..8] == "Refactor";
    assert r == r[..8] + r[8..];
  }

  lemma TruncatedShortLine()
    ensures TruncateMessage("short", 10) == "short"
  {
    BeforeFirstOf("short", '\n', "");
    assert "short" + "" == "short";
  }

  lemma TruncatedFirstLine()
    ensures TruncateMessage("subject\n\nbody", 50) == "subject"
  {
    BeforeFirstOf("subject", '\n', "\n\nbody");
    assert "subject" + "\n\nbody" == "subject\n\nbody";
  }

  /** `https://github.com/owner/repo.git`: the clone URL names the repository
      without its `.git`. */
  lemma CloneUrl(input: string, owner: string, repo: string)
    requires owner != "" && repo != "" && '/' !in owner && '/' !in repo
    requires input == "https://" + UrlPrefix + owner + "/" + repo + GitSuffix
    ensures ParseRepoInput(input) == Some(RepoRef(owner, repo))
  {
    var r := repo + GitSuffix;
    assert input == "https://" + UrlPrefix + owner + "/" + r + "";
    assert '/' !in r;
    StripGitSuffixAppended(repo);
    UrlRoundTrip(input, "https://", owner, r, "");
  }

  /** The React clone URL, read as its pieces. */
  lemma ReactUrlPieces(input: string)
    requires input == "https://github.com/facebook/react.git"
    ensures input == "https://" + UrlPrefix + "facebook" + "/" + "react" + GitSuffix
  {
    assert "https://" + UrlPrefix == "https://github.com/";
    assert "facebook" + "/" + "react" + GitSuffix == "facebook/react.git";
  }

  lemma ParsedUrl(input: string)
    requires input == "https://github.com/facebook/react.git"
    ensures ParseRepoInput(input) == Some(RepoRef("facebook", "react"))
  {
    ReactUrlPieces(input);
    CloneUrl(input, "facebook", "react");
  }

  /** `github.com/x/y github.com/a/b`, read as its pieces. */
  lemma TwoUrlsPieces(input: string)
    requires input == "github.com/x/y github.com/a/b"
    ensures input == "" + UrlPrefix + "x" + "/" + "y github.com" + "/a/b"
    ensures '/' !in "y github.com"
  {
    assert UrlPrefix + "x" + "/" == "github.com/x/";
    assert "y github.com" + "/a/b" == "y github.com/a/b";
  }

  /** Two URLs: the leftmost match wins, and its second group runs on to the
      next slash, past the space and into the second host name. */
  lemma LeftmostUrlWins(input: string)
    requires input == "github.com/x/y github.com/a/b"
    ensures ParseRepoInput(input) == Some(RepoRef("x", "y github.com"))
  {
    TwoUrlsPieces(input);
    StripGitSuffixUnchanged("y github.com");
    UrlRoundTrip(input, "", "x", "y github.com", "/a/b");
  }

  /** A character in neither name nor the slash is not in `a/b`. */
  lemma JoinedLacks(input: string, a: string, b: string, c: char)
    requires input == a + "/" + b + ""
    requires c != '/' && c !in a && c !in b
    ensures c !in input
  {
    forall i | 0 <= i < |input|
      ensures input[i] != c
    {
      if i < |a| {
        assert input[i] == a[i];
      } else if i > |a| {
        assert input[i] == b[i - |a| - 1];
      }
    }
  }

  /** `" owner / repo "` read as `o/r` with the padded names `o` and `r`. */
  lemma PaddedShape(input: string, owner: string, repo: string, o: string, r: string)
    requires '/' !in owner && '/' !in repo && 'g' !in owner && 'g' !in repo
    requires input == " " + owner + " / " + repo + " "
    requires o == " " + owner + " " && r == " " + repo + " "
    ensures input == o + "/" + r + ""
    ensures '/' !in o && '/' !in r
    ensures !Includes(input, Host)
  {
    assert input == o + "/" + r + "";
    JoinedLacks(input, o, r, 'g');
    NotIncludedWithoutFirst(input, Host);
  }

  /** `" owner / repo "`: the shorthand form tolerates spaces around both names. */
  lemma PaddedShorthand(input: string, owner: string, repo: string)
    requires owner != [] && !IsWhitespace(owner[0]) && !IsWhitespace(owner[|owner| - 1])
    requires repo != [] && !IsWhitespace(repo[0]) && !IsWhitespace(repo[|repo| - 1])
    requires '/' !in owner && '/' !in repo && 'g' !in owner && 'g' !in repo
    requires input == " " + owner + " / " + repo + " "
    ensures ParseRepoInput(input) == Some(RepoRef(owner, repo))
  {
    var o := " " + owner + " ";
    var r := " " + repo + " ";
    PaddedShape(input, owner, repo, o, r);
    TrimAround(" ", owner, " ");
    TrimAround(" ", repo, " ");
    ShorthandRoundTrip(input, o, r, "");
  }

  lemma ParsedShorthand(input: string)
    requires input == " facebook / react "
    ensures ParseRepoInput(input) == Some(RepoRef("facebook", "react"))
  {
    PaddedShorthand(input, "facebook", "react");
  }

  lemma RejectedBareName()
    ensures ParseRepoInput("react").None?
  {
    NoSlashRejected("react");
  }

  lemma RejectedEmptyRepo()
    ensures ParseRepoInput("x/").None?
  {
    NotIncludedWithoutFirst("x/", Host);
    ShorthandRoundTrip("x/", "x", "", "");
  }

  lemma RejectedBlankOwner()
    ensures ParseRepoInput(" / x").None?
  {
    NotIncludedWithoutFirst(" / x", Host);
    ShorthandRoundTrip(" / x", " ", " x", "");
  }
}
