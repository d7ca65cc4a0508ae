/** A closed-form description of the lineage pass: the state after the first
    `n` commits, and the lineage the `i`-th commit is drawn in, with the
    invariants the pass keeps. */
module LineageProperties {
  import opened Wrappers
  import opened GitTypes
  import opened GraphBuilder

  /** The lineage state once `commits[..n]` have been processed. */
  function StateAfter(commits: seq<GitCommit>, n: nat): (st: LineageState)
    requires n <= |commits|
    ensures Bounded(st)
    ensures st.current <= n
    decreases n
  {
    if n == 0 then Initial else Step(StateAfter(commits, n - 1), commits[n - 1]).next
  }

  /** The lineage of `commits[i]`. */
  function LineageAt(commits: seq<GitCommit>, i: nat): (l: nat)
    requires i < |commits|
    ensures l <= StateAfter(commits, i + 1).current
    ensures commits[i].sha in StateAfter(commits, i).tags ==> l == StateAfter(commits, i).tags[commits[i].sha]
  {
    Step(StateAfter(commits, i), commits[i]).lineage
  }

  lemma {:induction false} MergeCountAppend(a: seq<GitCommit>, b: seq<GitCommit>)
    ensures MergeCount(a + b) == MergeCount(a) + MergeCount(b)
    decreases |a|
  {
    if a != [] {
      assert (a + b)[1..] == a[1..] + b;
      MergeCountAppend(a[1..], b);
    } else {
      assert a + b == b;
    }
  }

  lemma MergeCountPrefix(commits: seq<GitCommit>, n: nat)
    requires n <= |commits|
    ensures MergeCount(commits[..n]) <= MergeCount(commits)
  {
    assert commits == commits[..n] + commits[n..];
    MergeCountAppend(commits[..n], commits[n..]);
  }

  /** Every recorded lineage is at most `currentBranch`, and `currentBranch`
      is at most the number of merge commits processed so far. */
  lemma {:induction false} StateAfterBounded(commits: seq<GitCommit>, n: nat)
    requires n <= |commits|
    ensures Bounded(StateAfter(commits, n))
    ensures StateAfter(commits, n).current <= MergeCount(commits[..n])
    decreases n
  {
    if n > 0 {
      StateAfterBounded(commits, n - 1);
      assert commits[..n] == commits[..n - 1] + [commits[n - 1]];
      MergeCountAppend(commits[..n - 1], [commits[n - 1]]);
    }
  }

  /** `currentBranch` never decreases. */
  lemma {:induction false} CounterMonotone(commits: seq<GitCommit>, m: nat, n: nat)
    requires m <= n <= |commits|
    ensures StateAfter(commits, m).current <= StateAfter(commits, n).current
    decreases n - m
  {
    if m < n {
      CounterMonotone(commits, m, n - 1);
    }
  }

  /** A SHA once tagged stays tagged (its value may still be overwritten). */
  lemma {:induction false} TagsPersist(commits: seq<GitCommit>, m: nat, n: nat, s: string)
    requires m <= n <= |commits|
    requires s in StateAfter(commits, m).tags
    ensures s in StateAfter(commits, n).tags
    decreases n - m
  {
    if m < n {
      TagsPersist(commits, m, n - 1, s);
    }
  }

  /** Every node's lineage lies between 0 and the counter after its commit,
      which is at most the number of merges in the whole input. */
  lemma LineageBounded(commits: seq<GitCommit>, i: nat)
    requires i < |commits|
    ensures LineageAt(commits, i) <= StateAfter(commits, i + 1).current
    ensures StateAfter(commits, i + 1).current <= MergeCount(commits)
  {
    StateAfterBounded(commits, i);
    StateAfterBounded(commits, i + 1);
    MergeCountPrefix(commits, i + 1);
  }

  /** How the lineage of `commits[i]` is chosen: its own tag if it has one,
      otherwise the tag of its first tagged parent, otherwise the counter. */
  lemma LineageChoice(commits: seq<GitCommit>, i: nat)
    requires i < |commits|
    ensures var st := StateAfter(commits, i);
      var c := commits[i];
      && (c.sha in st.tags ==> LineageAt(commits, i) == st.tags[c.sha])
      && (c.sha !in st.tags && (exists k :: 0 <= k < |c.parents| && c.parents[k] in st.tags) ==>
           exists k :: 0 <= k < |c.parents| && c.parents[k] in st.tags
             && LineageAt(commits, i) == st.tags[c.parents[k]]
             && forall k' :: 0 <= k' < k ==> c.parents[k'] !in st.tags)
      && (c.sha !in st.tags && (forall k :: 0 <= k < |c.parents| ==> c.parents[k] !in st.tags) ==>
           LineageAt(commits, i) == st.current)
  {
    var st := StateAfter(commits, i);
    var c := commits[i];
    if c.sha !in st.tags {
      match FirstTaggedFrom(c.parents, st.tags, 0)
      case Some(k) =>
      case None =>
    }
  }

  /** After its commit, the first parent carries the commit's lineage,
      whatever tag it had before. */
  lemma FirstParentRetagged(commits: seq<GitCommit>, i: nat)
    requires i < |commits|
    requires Truthy(commits[i].parents, 0)
    ensures commits[i].parents[0] in StateAfter(commits, i + 1).tags
    ensures StateAfter(commits, i + 1).tags[commits[i].parents[0]] == LineageAt(commits, i)
  {
  }

  /** A lineage is minted exactly for a merge whose (non-empty) second parent
      is untagged and differs from the first parent. The minted id is the
      second parent's tag and differs from every lineage recorded or drawn
      before it, the merge's own and its first parent's included. */
  lemma MintedLineageIsFresh(commits: seq<GitCommit>, i: nat)
    requires i < |commits|
    ensures var before := StateAfter(commits, i);
      var after := StateAfter(commits, i + 1);
      var c := commits[i];
      && (after.current == before.current + 1 <==>
           c.IsMerge() && Truthy(c.parents, 1) && c.parents[1] !in before.tags && c.parents[1] != c.parents[0])
      && (after.current != before.current + 1 ==> after.current == before.current)
      && (after.current == before.current + 1 ==>
           && after.tags[c.parents[1]] == after.current
           && (Truthy(c.parents, 0) ==> after.tags[c.parents[0]] != after.current)
           && (forall s :: s in before.tags ==> before.tags[s] != after.current)
           && (forall j :: 0 <= j <= i ==> LineageAt(commits, j) != after.current))
  {
    var before := StateAfter(commits, i);
    var after := StateAfter(commits, i + 1);
    StateAfterBounded(commits, i);
    if after.current == before.current + 1 {
      forall j | 0 <= j <= i
        ensures LineageAt(commits, j) != after.current
      {
        StateAfterBounded(commits, j);
        CounterMonotone(commits, j, i);
      }
    }
  }
}
