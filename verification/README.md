# GitViz core in Dafny

GitViz draws the recent history of a GitHub repository as a graph. This
project models two parts of it:

- **The commit-graph builder.** `buildCommitGraph` takes commits newest
  first. It infers a lineage ("branch") for each commit by following parent
  pointers, one left-to-right pass with a SHA-to-lineage map and a counter.
  It lays out one node per commit and emits one edge per parent that is
  itself among the commits. The same file has two presentation helpers,
  `shortenSha` and `truncateMessage`.
- **The repository-input parser.** The search box's submit handler accepts
  either a GitHub URL or `owner/repo` shorthand. The model extracts it as a
  pure function, `ParseRepoInput`, plus `HandleSubmit`, which returns what
  the handler shows or searches for.

Modules:

- `Wrappers`: `Option`.
- `JsString`: the JavaScript string built-ins the code uses (`includes`,
  `split`, `trim`, number-to-decimal), written out on `seq<char>` with
  their contracts; `includes` is defined through a leftmost-occurrence
  search.
- `GitTypes`: the records of `src/types/git.ts`.
- `GraphBuilder`: the pass itself, written as a fold over the commits.
  - `Step` is one iteration of the `forEach` body's tagging.
  - `BuildFrom` threads the state.
  - `MakeNode`, `MakeEdge` and `ParentEdges` build the output.
- `LineageProperties`: the state after the first `n` commits (`StateAfter`),
  each commit's lineage (`LineageAt`), and the invariants the pass keeps.
- `GraphProperties`: what `buildCommitGraph` returns, stated per commit index
  and per (commit, parent) pair, with no reference to the fold.
- `SearchInput`: the URL pattern `github\.com\/([^/]+)\/([^/]+)` as a
  leftmost, greedy matcher; `.git` stripping; shorthand splitting; the
  validation.
- `Scenarios`: concrete histories and inputs whose results are pinned down
  completely.

The lineage pass is a heuristic, and the model keeps its exact choices:

- An untagged commit with no tagged parent takes the counter's current value
  without advancing it; the counter only advances when a merge's second
  parent is untagged (src/utils/graphBuilder.ts:37-48, 56-61).
- A commit's first parent is retagged with the commit's lineage even when it
  already has a tag (src/utils/graphBuilder.ts:51-53). `FirstParentRetagged`
  and `StepSpec` state the overwrite.

JavaScript truthiness of `parents[0]` and `parents[1]` is modelled as "the
index exists and the SHA is not the empty string" (`Truthy`).

## Model

| member | source | states |
|---|---|---|
| GraphBuilder.BuildCommitGraph | src/utils/graphBuilder.ts:15-104 | One node per commit, in input order. Each node has the commit's SHA as id, carries the commit, is a merge node exactly when the commit has more than one parent, and sits at y = 80 × index. Every x lies between 100 and 100 + 40 × (number of merges). Every edge joins two SHAs of the input. No commits give no nodes and no edges. |
| GraphBuilder.BuildFromShape | src/utils/graphBuilder.ts:30-101 | From any point of the pass, the remaining commits yield one node each, in order. Their lanes stay within the counter plus the merges still to come. Their edges leave those commits and enter SHAs of the input. |
| GraphBuilder.FirstTaggedFrom | src/utils/graphBuilder.ts:39-41 | Returns the index of the first parent that already has a lineage. It is absent exactly when no parent has one. |
| GraphBuilder.ChooseLineage | src/utils/graphBuilder.ts:35-48 | A commit that already has a lineage keeps it. In a state where no tag exceeds the counter, the chosen lineage does not exceed it either. |
| GraphBuilder.Step | src/utils/graphBuilder.ts:50-62 | One iteration keeps every tag at or below the counter. It advances the counter by at most one, and only for a merge commit. |
| GraphBuilder.StepSpec | src/utils/graphBuilder.ts:35-62 | Defines exactly what one iteration records. The first parent gets the commit's lineage, overwriting any old tag. A non-empty second parent of a merge is tagged. A lineage is minted exactly when that second parent was untagged and differs from the first. The new tag is the new counter value. No other tag changes or appears. |
| GraphBuilder.ParentEdges | src/utils/graphBuilder.ts:83-100 | A commit's edges leave the commit, enter a SHA of the input, have id `child-parent`, and number at most one per parent. |
| GraphBuilder.BuildFrom | src/utils/graphBuilder.ts:30-101 | From commit `index` on, the pass yields one node per remaining commit. Node j describes commit index + j: that commit's SHA as id, the commit itself, the merge kind exactly when it has several parents, and y = 80 × (index + j). |
| GraphBuilder.MakeNode | src/utils/graphBuilder.ts:64-80 | The node for a commit at a row describes that commit (id, commit, kind, y = 80 × row). It is drawn in the given lineage: x = 100 + 40 × lineage, the palette colour at lineage mod 8, and the label `branch-<lineage>`. |
| GraphBuilder.MakeEdge | src/utils/graphBuilder.ts:86-98 | The edge to parent k runs from the commit to that parent, with id `child-parent`. It is a merge edge, and animated, exactly when k > 0. For k = 0 its stroke is the colour of the commit's lineage. For k > 0 it is the colour of the parent's tag, or of the commit's lineage when the parent is untagged. |
| GraphBuilder.ShortenSha | src/utils/graphBuilder.ts:117-119 | The result is the prefix of the SHA of length min(7, length). |
| GraphBuilder.TruncateMessage | src/utils/graphBuilder.ts:121-125 | The result is the text before the first newline when that fits in `maxLength`. Otherwise it is a prefix of that line of length `maxLength` (0 when negative) followed by `...`. It never contains a newline. |
| GraphBuilder.TruncateMessageDefault | src/utils/graphBuilder.ts:121-121 | With the default limit of 50, the result is at most 53 characters long. |
| LineageProperties.StateAfter | src/utils/graphBuilder.ts:26-62 | After the first n commits, every recorded lineage is at most the counter, and the counter is at most n. |
| LineageProperties.LineageAt | src/utils/graphBuilder.ts:35-48 | A commit's lineage is at most the counter after that commit. A commit already tagged when it is reached takes exactly that tag. |
| LineageProperties.StateAfterBounded | src/utils/graphBuilder.ts:26-62 | After any prefix of the commits, every recorded lineage is at most the counter. The counter is at most the number of merges processed so far. |
| LineageProperties.CounterMonotone | src/utils/graphBuilder.ts:56-61 | The counter never decreases along the pass. |
| LineageProperties.TagsPersist | src/utils/graphBuilder.ts:51-60 | A SHA that has a lineage keeps having one for the rest of the pass. |
| LineageProperties.LineageBounded | src/utils/graphBuilder.ts:35-62 | A commit's lineage is at most the counter after that commit. That counter is at most the number of merge commits in the input. |
| LineageProperties.LineageChoice | src/utils/graphBuilder.ts:35-48 | A commit's lineage is chosen in this order: its own tag if it has one; otherwise the tag of its first parent that has one, earlier parents having none; otherwise the current counter. |
| LineageProperties.FirstParentRetagged | src/utils/graphBuilder.ts:51-53 | After a commit is processed, its non-empty first parent has exactly the commit's lineage. |
| LineageProperties.MintedLineageIsFresh | src/utils/graphBuilder.ts:56-61 | The counter advances exactly for a merge whose non-empty second parent is untagged and differs from the first; otherwise it stays put. The new id is the second parent's tag. It differs from the first parent's tag, every earlier tag and the lineage of every commit processed so far. |
| GraphProperties.ParentPairsSound | src/utils/graphBuilder.ts:83-85 | The pairs listed for a commit name its parents that are in the input. |
| GraphProperties.ParentPairsComplete | src/utils/graphBuilder.ts:83-85 | Every parent of a commit that is in the input has its pair listed. |
| GraphProperties.ResolvedPairsSpec | src/utils/graphBuilder.ts:82-100 | The resolved pairs are exactly the (commit, parent index) pairs whose parent SHA is in the input. Each occurs once, ordered by commit and then by parent index. |
| GraphProperties.BuildCommitGraphSpec | src/utils/graphBuilder.ts:15-104 | Node i describes commit i and is drawn in its inferred lineage: x = 100 + 40 × lineage, the palette colour at lineage mod 8, and the label `branch-<lineage>`. The edges are exactly one per resolved pair, in pair order. |
| GraphProperties.EdgeAtSpec | src/utils/graphBuilder.ts:86-97 | An edge runs from the commit to its parent with id `child-parent`. The first parent's edge is a plain, non-animated edge in the node's colour. A later parent's edge is an animated merge edge in the colour of the parent's tag after this commit, or in the node's colour when the parent is untagged. A non-empty second parent is always tagged by then. |
| GraphProperties.NodeIdsAreShas | src/utils/graphBuilder.ts:68-69 | The set of node ids is exactly the set of commit SHAs. |
| GraphProperties.WindowedParentHasNoEdge | src/utils/graphBuilder.ts:84-85 | A parent SHA outside the input is the target of no edge. |
| JsString.IndexOfFrom | src/components/Search/SearchInput.tsx:22-22 | The search behind `includes` returns the leftmost occurrence at or after the start, or nothing when there is none. |
| JsString.IncludesIff | src/components/Search/SearchInput.tsx:22-22 | `includes` holds exactly when the text occurs at some position. |
| JsString.Split | src/components/Search/SearchInput.tsx:29-29 | `split` gives slash-free pieces that join back to the input. There are at least two pieces exactly when the separator occurs. |
| JsString.SplitJoin | src/components/Search/SearchInput.tsx:29-29 | Splitting undoes joining of separator-free parts. |
| JsString.SplitFirstTwo | src/components/Search/SearchInput.tsx:29-32 | The first two pieces of `a/b…` are `a` and `b`. |
| JsString.BeforeFirst | src/utils/graphBuilder.ts:122-122 | `split('\n')[0]` is the longest newline-free prefix. It is shorter than the input exactly when a newline occurs. |
| JsString.NatToString | src/utils/graphBuilder.ts:77-77 | The decimal rendering in a `branch-` label is a non-empty string of digits with no leading zero. |
| JsString.Trim | src/components/Search/SearchInput.tsx:31-32 | `trim` gives the contiguous middle of the text with whitespace on both sides removed. Its ends are not whitespace. It is empty exactly when the text is all whitespace. |
| JsString.TrimIdempotent | src/components/Search/SearchInput.tsx:31-32 | Trimming twice equals trimming once. |
| JsString.TrimAround | src/components/Search/SearchInput.tsx:31-32 | Trimming removes exactly the whitespace padding around a text whose ends are not whitespace. |
| JsString.DecimalRoundTrip | src/utils/graphBuilder.ts:77-77 | The decimal rendering of a lineage reads back as the same number. |
| JsString.NatToStringInjective | src/utils/graphBuilder.ts:77-77 | Distinct lineages get distinct `branch-` labels. |
| SearchInput.GroupsAt | src/components/Search/SearchInput.tsx:23-23 | A match reported at a position is `github.com/`, a group, `/` and a group there. Both groups are non-empty and slash-free. The second group runs up to the end of the input or the next slash, as the greedy class does. |
| SearchInput.UrlMatch | src/components/Search/SearchInput.tsx:23-23 | `match` returns the groups at the leftmost position where the pattern matches. It finds nothing exactly when the pattern matches at no position. |
| SearchInput.GroupsAtSound | src/components/Search/SearchInput.tsx:23-23 | A reported match really matches the pattern at that position. |
| SearchInput.GroupsAtComplete | src/components/Search/SearchInput.tsx:23-23 | Wherever the pattern can match, a match is reported there, with the only possible first group and the longest second group. |
| SearchInput.FirstMatchFrom | src/components/Search/SearchInput.tsx:23-23 | The reported match is at the leftmost position where the pattern matches. |
| SearchInput.NoMatchBefore | src/components/Search/SearchInput.tsx:23-23 | The pattern matches at no position that comes before the first occurrence of its own first character (`g` for `github.com/`). |
| SearchInput.FirstMatchAfter | src/components/Search/SearchInput.tsx:23-25 | In `<text>github.com/owner/repo[/…]`, where the pattern matches nowhere inside `<text>`, the match is at that occurrence, with groups `owner` and `repo`. |
| SearchInput.StripGitSuffix | src/components/Search/SearchInput.tsx:26-26 | Removing `.git` yields a prefix of the name that is either the whole name or the name less one trailing `.git`. |
| SearchInput.StripGitSuffixAppended | src/components/Search/SearchInput.tsx:26-26 | `x.git` loses exactly its one trailing `.git`. |
| SearchInput.StripGitSuffixUnchanged | src/components/Search/SearchInput.tsx:26-26 | A name not ending in `.git` is unchanged. |
| SearchInput.Candidate | src/components/Search/SearchInput.tsx:22-34 | Neither extracted part contains a slash, in either branch. |
| SearchInput.ParseRepoInput | src/components/Search/SearchInput.tsx:18-39 | An accepted reference has a non-empty owner and repo, neither containing a slash. |
| SearchInput.NoSlashRejected | src/components/Search/SearchInput.tsx:18-39 | Input without a slash is refused. |
| SearchInput.HostWithoutMatchRejected | src/components/Search/SearchInput.tsx:22-28 | Input mentioning `github.com` where the pattern matches nowhere is refused; shorthand parsing is not tried. |
| SearchInput.HostWithoutUrlRejected | src/components/Search/SearchInput.tsx:22-28 | Input mentioning `github.com` but never `github.com/` is refused. |
| SearchInput.UrlForm | src/components/Search/SearchInput.tsx:22-27 | In URL mode the leftmost match's groups are the result, untrimmed, with `.git` dropped from the repo. Input is refused when nothing of the repo is left. |
| SearchInput.UrlRoundTrip | src/components/Search/SearchInput.tsx:22-27 | `<prefix>github.com/owner/repo[/…]`, with a prefix free of `g`, parses to `owner` and `repo` less one trailing `.git`. It is refused when that leaves nothing. |
| SearchInput.ShorthandRoundTrip | src/components/Search/SearchInput.tsx:28-33 | `owner/repo[/…]` without `github.com` parses to the trimmed owner and repo, ignoring later segments. It is refused when either trims to nothing. |
| SearchInput.HandleSubmit | src/components/Search/SearchInput.tsx:14-42 | A search is issued exactly when the input parses, for exactly the parsed reference, and then the error is empty. Otherwise the error is the fixed validation message. |
| Scenarios.LinearChain | src/utils/graphBuilder.ts:35-53 | `[C3(C2), C2(C1), C1()]` draws all three commits in lineage 0 and never advances the counter. |
| Scenarios.LinearChainSteps | src/utils/graphBuilder.ts:35-62 | For `[C3(C2), C2(C1), C1()]`, every iteration takes lineage 0 and tags its parent with 0; the counter stays 0. |
| Scenarios.LinearChainEdges | src/utils/graphBuilder.ts:82-100 | The chain's edges are exactly `c3-c2` and `c2-c1`, in that order: plain, not animated, in the colour of lineage 0. |
| Scenarios.MergeDiamond | src/utils/graphBuilder.ts:15-104 | For `[M(A, B), A(Root), B(Root), Root()]`: `B` and `Root` are drawn in a minted lineage 1. The edge `m-b` is an animated merge edge in cyan. Both edges into `Root` are present, in the colours of their sources. |
| Scenarios.MergeDiamondSteps | src/utils/graphBuilder.ts:35-62 | For the diamond, `M` tags `A` with 0 and mints lineage 1 for `B`. `B` then retags `Root` from 0 to 1, and `Root` keeps 1. |
| Scenarios.TruncatedWindow | src/utils/graphBuilder.ts:84-85 | A parent cut off by the window gets no edge; the other edge remains. |
| Scenarios.ShortShas | src/utils/graphBuilder.ts:117-119 | A long SHA is cut to 7 characters; a short one is kept. |
| Scenarios.TruncatedLongLine | src/utils/graphBuilder.ts:121-125 | A long subject is cut to the limit and `...` is appended. |
| Scenarios.TruncatedShortLine | src/utils/graphBuilder.ts:121-125 | A one-line message within the limit is returned unchanged. |
| Scenarios.TruncatedFirstLine | src/utils/graphBuilder.ts:121-125 | Only the subject line of a multi-line message is kept. |
| Scenarios.CloneUrl | src/components/Search/SearchInput.tsx:22-27 | `https://github.com/owner/repo.git` parses to `owner` and `repo`. |
| Scenarios.ParsedUrl | src/components/Search/SearchInput.tsx:22-27 | `https://github.com/facebook/react.git` parses to `facebook`/`react`. |
| Scenarios.LeftmostUrlWins | src/components/Search/SearchInput.tsx:22-27 | `github.com/x/y github.com/a/b` parses to owner `x` and repo `y github.com`: the leftmost match wins, and the greedy second group runs to the next slash. |
| Scenarios.PaddedShorthand | src/components/Search/SearchInput.tsx:28-33 | ` owner / repo ` parses to the names without the padding, for non-empty names with non-blank ends and no slash or `g` (a `g` could spell `github.com` and send the input down the URL branch). |
| Scenarios.ParsedShorthand | src/components/Search/SearchInput.tsx:28-33 | ` facebook / react ` parses to `facebook`/`react`. |
| Scenarios.RejectedBareName | src/components/Search/SearchInput.tsx:36-39 | `react` is refused. |
| Scenarios.RejectedEmptyRepo | src/components/Search/SearchInput.tsx:36-39 | `x/` is refused. |
| Scenarios.RejectedBlankOwner | src/components/Search/SearchInput.tsx:36-39 | ` / x` is refused. |

## Left out

- `formatCommitDate` (src/utils/graphBuilder.ts:106-115): locale-dependent date formatting through `Date` and `toLocaleDateString`. It is not part of the graph or parser logic.
- The React component around `handleSubmit` is left out: state hooks, `preventDefault`, rendering and the loading spinner. `HandleSubmit` returns the error text and the search request instead of setting state and calling `onSearch`.
- Network fetching, the store and the graph rendering components are not part of this model.
- Strings are sequences of Unicode scalar values. JavaScript counts UTF-16 code units, so `ShortenSha` and `TruncateMessage` differ from the source for characters outside the Basic Multilingual Plane.
- `Trim` uses a fixed whitespace set: the ECMAScript WhiteSpace and LineTerminator code points, with the Zs category fixed as of current Unicode.
- `TruncateMessage` takes an integer `maxLength`. Fractional, `NaN` or infinite limits, which `substring` would coerce, are not modelled.
- Coordinates and lineages are unbounded integers. JavaScript numbers are exact only up to 2^53, far beyond any commit count.
- The regular expression engine is not modelled in general, only the one pattern `github\.com\/([^/]+)\/([^/]+)` and the one replacement `/\.git$/`.
- The `BranchNode` node kind exists in the types but the builder never produces it. The `message`, `author` and `url` fields of a commit are carried unread.
- Behaviour on duplicate SHAs is modelled as written: tags are keyed by SHA and edges are filtered by SHA membership. No property is stated for that case.
- SearchInput.UrlRoundTrip: stated for inputs whose text before `github.com/` contains no `g`. `UrlForm` together with `HostWithoutMatchRejected` covers every input that mentions `github.com`, in terms of the leftmost match.
