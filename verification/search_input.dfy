/** The repository reference the search box accepts: either shorthand
    `owner/repo` or any text holding a GitHub URL. The submit handler's
    parsing is a pure function here; the callback it ends in is a result. */
module SearchInput {
  import opened Wrappers
  import opened JsString

  datatype RepoRef = RepoRef(owner: string, repo: string)

  /** The text whose presence selects URL parsing. */
  const Host := "github.com"
  /** The literal part of the URL pattern `github\.com\/([^/]+)\/([^/]+)`. */
  const UrlPrefix := "github.com/"
  const GitSuffix := ".git"
  const InvalidRepoMessage := "Please enter a valid repository (owner/repo or GitHub URL)"

  /** `g1`, `g2` are capture groups of SOME way the pattern
      `pre([^/]+)/([^/]+)` can match `s` at `p`: `pre`, then a non-empty
      slash-free run, a slash, and a non-empty slash-free run. */
  ghost predicate Matches(s: string, pre: string, p: nat, g1: string, g2: string) {
    && g1 != [] && g2 != [] && '/' !in g1 && '/' !in g2
    && OccursAt(s, pre, p)
    && OccursAt(s, g1, p + |pre|)
    && p + |pre| + |g1| < |s| && s[p + |pre| + |g1|] == '/'
    && OccursAt(s, g2, p + |pre| + |g1| + 1)
  }

  /** The groups the regular expression engine reports for a match of
      `pre([^/]+)/([^/]+)` starting at `p`, if any: both groups are greedy,
      so the first runs up to the next slash and the second as far as it can. */
  function GroupsAt(s: string, pre: string, p: nat): (m: Option<(string, string)>)
    requires p <= |s|
    ensures m.Some? ==> Matches(s, pre, p, m.value.0, m.value.1)
    ensures m.Some? ==>
      var n := p + |pre| + |m.value.0| + 1 + |m.value.1|;
      n == |s| || s[n] == '/'
  {
    if !OccursAt(s, pre, p) then None
    else
      var a := p + |pre|;
      var b := ScanTo(s, '/', a);
      if b == a || b == |s| then None
      else
        var c := ScanTo(s, '/', b + 1);
        if c == b + 1 then None
        else Some((s[a..b], s[b + 1..c]))
  }

  /** A reported match is a match. */
  lemma GroupsAtSound(s: string, pre: string, p: nat, m: (string, string))
    requires p <= |s| && GroupsAt(s, pre, p) == Some(m)
    ensures Matches(s, pre, p, m.0, m.1)
  {
  }

  /** Whenever the pattern can match at `p`, the engine reports a match
      there, with the same first group and a second group extending the
      given one: the greedy choice. */
  lemma GroupsAtComplete(s: string, pre: string, p: nat, g1: string, g2: string)
    requires p <= |s| && Matches(s, pre, p, g1, g2)
    ensures GroupsAt(s, pre, p).Some?
    ensures GroupsAt(s, pre, p).value.0 == g1
    ensures g2 <= GroupsAt(s, pre, p).value.1
  {
    var a := p + |pre|;
    var m := a + |g1|;
    var n := m + 1 + |g2|;
    var b := ScanTo(s, '/', a);
    assert b == m;
    var c := ScanTo(s, '/', b + 1);
    assert c >= n;
    assert s[b + 1..c][..|g2|] == s[m + 1..n];
  }

  /** The leftmost position at or after `from` where the pattern matches. */
  function FirstMatchFrom(s: string, pre: string, from: nat): (r: Option<nat>)
    requires from <= |s|
    ensures r.Some? ==> from <= r.value <= |s| && GroupsAt(s, pre, r.value).Some?
    ensures forall q :: from <= q <= |s| && (r.None? || q < r.value) ==> GroupsAt(s, pre, q).None?
    decreases |s| - from
  {
    if GroupsAt(s, pre, from).Some? then Some(from)
    else if from == |s| then None
    else FirstMatchFrom(s, pre, from + 1)
  }

  /** A match whose second group ends at the end of `s` or at a slash is
      exactly the match the engine reports. */
  lemma GroupsAtExact(s: string, pre: string, p: nat, g1: string, g2: string)
    requires p <= |s| && Matches(s, pre, p, g1, g2)
    requires var n := p + |pre| + |g1| + 1 + |g2|; n == |s| || s[n] == '/'
    ensures GroupsAt(s, pre, p) == Some((g1, g2))
  {
    GroupsAtComplete(s, pre, p, g1, g2);
    var m := GroupsAt(s, pre, p).value;
    GroupsAtSound(s, pre, p, m);
  }

  /** Before the first occurrence of `pre`'s first character the pattern
      matches nowhere. */
  lemma NoMatchBefore(s: string, pre: string, p: nat)
    requires pre != [] && p <= |s|
    requires forall q :: 0 <= q < p ==> s[q] != pre[0]
    ensures forall q :: 0 <= q < p ==> GroupsAt(s, pre, q).None?
  {
    forall q | 0 <= q < p
      ensures GroupsAt(s, pre, q).None?
    {
      assert !OccursAt(s, pre, q) by {
        if q + |pre| <= |s| {
          assert s[q..q + |pre|][0] == s[q];
        }
      }
    }
  }

  /** A match at `p`, with none before it, is the leftmost match. */
  lemma FirstMatchAt(s: string, pre: string, p: nat)
    requires p <= |s| && GroupsAt(s, pre, p).Some?
    requires forall q :: 0 <= q < p ==> GroupsAt(s, pre, q).None?
    ensures FirstMatchFrom(s, pre, 0) == Some(p)
  {
  }

  /** With `pre` found after a text where the pattern matches nowhere, the
      leftmost match is there, and its groups are a maximal slash-free run
      each. */
  lemma FirstMatchAfter(s: string, prefix: string, pre: string, g1: string, g2: string, rest: string)
    requires s == prefix + pre + g1 + "/" + g2 + rest
    requires forall q :: 0 <= q < |prefix| ==> GroupsAt(s, pre, q).None?
    requires g1 != [] && g2 != [] && '/' !in g1 && '/' !in g2
    requires rest == [] || rest[0] == '/'
    ensures FirstMatchFrom(s, pre, 0) == Some(|prefix|)
    ensures GroupsAt(s, pre, |prefix|) == Some((g1, g2))
  {
    var p := |prefix|;
    var a := p + |pre|;
    var n := a + |g1| + 1 + |g2|;
    assert s[p..a] == pre;
    assert s[a..a + |g1|] == g1;
    assert s[a + |g1|] == '/';
    assert s[a + |g1| + 1..n] == g2;
    if rest != [] {
      assert s[n] == rest[0];
    }
    GroupsAtExact(s, pre, p, g1, g2);
    FirstMatchAt(s, pre, p);
  }

  /** `s.match(/github\.com\/([^/]+)\/([^/]+)/)`: the groups of the leftmost match. */
  function UrlMatch(s: string): (m: Option<(string, string)>)
    ensures m.Some? ==>
      exists p: nat ::
        && p <= |s| && GroupsAt(s, UrlPrefix, p) == m
        && (forall q :: 0 <= q < p ==> GroupsAt(s, UrlPrefix, q).None?)
    ensures m.None? <==> forall q :: 0 <= q <= |s| ==> GroupsAt(s, UrlPrefix, q).None?
  {
    match FirstMatchFrom(s, UrlPrefix, 0)
    case None => None
    case Some(p) => GroupsAt(s, UrlPrefix, p)
  }

  /** `r.replace(/\.git$/, '')`: drop one trailing `.git`. */
  function StripGitSuffix(r: string): (t: string)
    ensures t <= r
    ensures |t| == |r| || t + GitSuffix == r
  {
    if |r| >= |GitSuffix| && r[|r| - |GitSuffix|..] == GitSuffix then r[..|r| - |GitSuffix|] else r
  }

  lemma StripGitSuffixAppended(x: string)
    ensures StripGitSuffix(x + GitSuffix) == x
  {
    assert (x + GitSuffix)[|x|..] == GitSuffix;
    assert (x + GitSuffix)[..|x|] == x;
  }

  lemma StripGitSuffixUnchanged(x: string)
    requires !(|x| >= |GitSuffix| && x[|x| - |GitSuffix|..] == GitSuffix)
    ensures StripGitSuffix(x) == x
  {
  }

  /** The owner and repository the submit handler extracts, before its
      emptiness check: URL parsing when the input mentions `github.com`,
      else shorthand parsing when it holds a slash, else nothing. */
  function Candidate(input: string): (c: (string, string))
    ensures '/' !in c.0 && '/' !in c.1
  {
    if Includes(input, Host) then
      match UrlMatch(input)
      case Some(m) => (m.0, StripGitSuffix(m.1))
      case None => ("", "")
    else if '/' in input then
      var parts := Split(input, '/');
      TrimKeepsOut(parts[0], '/');
      TrimKeepsOut(parts[1], '/');
      (Trim(parts[0]), Trim(parts[1]))
    else ("", "")
  }

  /** The repository the submit handler searches for, or `None` when it
      shows the validation error. */
  function ParseRepoInput(input: string): (r: Option<RepoRef>)
    ensures r.Some? ==> r.value.owner != "" && r.value.repo != ""
    ensures r.Some? ==> '/' !in r.value.owner && '/' !in r.value.repo
  {
    var c := Candidate(input);
    if c.0 == "" || c.1 == "" then None else Some(RepoRef(c.0, c.1))
  }

  lemma TrimKeepsOut(s: string, ch: char)
    requires ch !in s
    ensures ch !in Trim(s)
  {
  }

  /** Both accepted forms contain a slash, so input without one is refused. */
  lemma NoSlashRejected(input: string)
    requires '/' !in input
    ensures ParseRepoInput(input).None?
  {
    if Includes(input, Host) {
      match FirstMatchFrom(input, UrlPrefix, 0)
      case None =>
      case Some(p) =>
    }
  }

  /** Mentioning `github.com` commits the handler to URL parsing: when the
      pattern matches nowhere the input is refused, even when it also reads
      as `owner/repo`. */
  lemma HostWithoutMatchRejected(input: string)
    requires Includes(input, Host)
    requires forall p: nat, g1, g2 :: !Matches(input, UrlPrefix, p, g1, g2)
    ensures ParseRepoInput(input).None?
  {
  }

  /** In particular, `github.com` never followed by a slash is refused. */
  lemma HostWithoutUrlRejected(input: string)
    requires Includes(input, Host) && !Includes(input, UrlPrefix)
    ensures ParseRepoInput(input).None?
  {
    IncludesIff(input, UrlPrefix);
    assert forall p: nat, g1, g2 :: !Matches(input, UrlPrefix, p, g1, g2);
    HostWithoutMatchRejected(input);
  }

  /** A GitHub URL after any text free of `g` (`https://`, `http://www.`, …)
      yields its owner and its repository less one trailing `.git`,
      whatever path follows the repository; it is refused when nothing of
      the repository is left. */
  lemma UrlRoundTrip(input: string, prefix: string, owner: string, repo: string, rest: string)
    requires input == prefix + UrlPrefix + owner + "/" + repo + rest
    requires 'g' !in prefix
    requires owner != "" && repo != "" && '/' !in owner && '/' !in repo
    requires rest == [] || rest[0] == '/'
    ensures ParseRepoInput(input)
      == if StripGitSuffix(repo) == "" then None else Some(RepoRef(owner, StripGitSuffix(repo)))
  {
    forall q | 0 <= q < |prefix|
      ensures input[q] != UrlPrefix[0]
    {
      assert input[q] == prefix[q];
    }
    NoMatchBefore(input, UrlPrefix, |prefix|);
    FirstMatchAfter(input, prefix, UrlPrefix, owner, repo, rest);
    HostInUrl(input, |prefix|);
    UrlForm(input, (owner, repo));
  }

  /** Wherever `github.com/` occurs, `github.com` does. */
  lemma HostInUrl(input: string, p: nat)
    requires OccursAt(input, UrlPrefix, p)
    ensures Includes(input, Host)
  {
    assert OccursAt(input, Host, p) by {
      assert input[p..p + |Host|] == input[p..p + |UrlPrefix|][..|Host|];
    }
    IncludesIff(input, Host);
  }

  /** In URL mode, the leftmost match's groups are the result, unless the
      repository is empty once `.git` is dropped. */
  lemma UrlForm(input: string, m: (string, string))
    requires Includes(input, Host) && UrlMatch(input) == Some(m)
    ensures ParseRepoInput(input)
      == if StripGitSuffix(m.1) == "" then None else Some(RepoRef(m.0, StripGitSuffix(m.1)))
  {
    var p := FirstMatchFrom(input, UrlPrefix, 0).value;
    GroupsAtSound(input, UrlPrefix, p, m);
  }

  /** Shorthand `owner/repo`, with anything from a further slash on ignored
      and surrounding whitespace of each part trimmed, when the input does
      not mention `github.com`; refused when either part trims to nothing. */
  lemma ShorthandRoundTrip(input: string, owner: string, repo: string, rest: string)
    requires input == owner + "/" + repo + rest
    requires '/' !in owner && '/' !in repo
    requires rest == [] || rest[0] == '/'
    requires !Includes(input, Host)
    ensures ParseRepoInput(input)
      == if Trim(owner) == "" || Trim(repo) == "" then None else Some(RepoRef(Trim(owner), Trim(repo)))
  {
    SplitFirstTwo(owner, repo, '/', rest);
    assert input[|owner|] == '/';
  }

  /** What submitting leaves on screen and what it searches for. */
  datatype Submission = Submission(error: string, search: Option<RepoRef>)

  /** `handleSubmit`: clears the error, then either reports the validation
      message or calls `onSearch` exactly once with the parsed reference. */
  function HandleSubmit(input: string): (r: Submission)
    ensures r.search.Some? <==> r.error == ""
    ensures r.search.None? ==> r.error == InvalidRepoMessage
    ensures r.search == ParseRepoInput(input)
  {
    match ParseRepoInput(input)
    case None => Submission(InvalidRepoMessage, None)
    case Some(ref) => Submission("", Some(ref))
  }
}
