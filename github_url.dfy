/**
 * `parseGitHubUrl`: reading an owner, a repository and a branch out of the
 * URL a user typed, by trying three regular expressions in turn on the
 * trimmed text:
 *   1. `^https?:\/\/github\.com\/([^\/]+)\/([^\/]+)(?:\/tree\/([^\/]+))?`
 *   2. `^github\.com\/([^\/]+)\/([^\/]+)(?:\/tree\/([^\/]+))?`
 *   3. `^([^\/]+)\/([^\/]+)$`
 * The branch is the third capture when there is one, else "main".
 */
module GitHubUrl {
  import opened Wrappers
  import opened JsString

  datatype RepoInfo = RepoInfo(owner: string, repo: string, branch: string)

  const DefaultBranch := "main"
  const HttpsPrefix := "https://github.com/"
  const HttpPrefix := "http://github.com/"
  const HostPrefix := "github.com/"
  const TreeMarker := "/tree/"

  // ---------------------------------------------------------------- matching

  /** Where a greedy `[^\/]*` starting at `i` stops: the next '/' or the end. */
  function RunEnd(s: string, i: nat): (j: nat)
    requires i <= |s|
    ensures i <= j <= |s|
    ensures forall k :: i <= k < j ==> s[k] != '/'
    ensures '/' !in s[i..j]
    ensures j == |s| || s[j] == '/'
    decreases |s| - i
  {
    if i == |s| || s[i] == '/' then i else RunEnd(s, i + 1)
  }

  /** The optional `(?:\/tree\/([^\/]+))?` at index `i`: its capture, or "main". */
  function TreeBranch(t: string, i: nat): (r: string)
    requires i <= |t|
    ensures IsSegment(r)
  {
    if StartsWith(t[i..], TreeMarker) then
      var b0 := i + |TreeMarker|;
      var be := RunEnd(t, b0);
      if be > b0 then t[b0..be] else DefaultBranch
    else DefaultBranch
  }

  /** `^<prefix>([^\/]+)\/([^\/]+)(?:\/tree\/([^\/]+))?`, with greedy captures. */
  function MatchHosted(t: string, prefix: string): (r: Option<RepoInfo>)
    ensures r.Some? ==> IsSegment(r.value.owner) && IsSegment(r.value.repo) && IsSegment(r.value.branch)
  {
    if !StartsWith(t, prefix) then None
    else
      var o0 := |prefix|;
      var oe := RunEnd(t, o0);
      if oe == o0 || oe == |t| then None
      else
        var r0 := oe + 1;
        var re := RunEnd(t, r0);
        if re == r0 then None
        else Some(RepoInfo(t[o0..oe], t[r0..re], TreeBranch(t, re)))
  }

  /** Pattern 1: `https?` tries the scheme with the `s` first, then without it. */
  function MatchFullUrl(t: string): (r: Option<RepoInfo>)
    ensures r.Some? ==> IsSegment(r.value.owner) && IsSegment(r.value.repo) && IsSegment(r.value.branch)
  {
    match MatchHosted(t, HttpsPrefix)
    case Some(info) => Some(info)
    case None => MatchHosted(t, HttpPrefix)
  }

  /** Pattern 2: the host-qualified path without a scheme. */
  function MatchHostPath(t: string): (r: Option<RepoInfo>)
    ensures r.Some? ==> IsSegment(r.value.owner) && IsSegment(r.value.repo) && IsSegment(r.value.branch)
  {
    MatchHosted(t, HostPrefix)
  }

  /** Pattern 3, anchored at both ends: the whole text is `owner/repo`. */
  function MatchBare(t: string): (r: Option<RepoInfo>)
    ensures r.Some? ==> IsSegment(r.value.owner) && IsSegment(r.value.repo) && r.value.branch == DefaultBranch
  {
    var oe := RunEnd(t, 0);
    if oe == 0 || oe == |t| then None
    else
      var re := RunEnd(t, oe + 1);
      if re == oe + 1 || re != |t| then None
      else Some(RepoInfo(t[..oe], t[oe + 1..], DefaultBranch))
  }

  /** The first of the three patterns that matches the trimmed URL, or none. */
  function ParseGitHubUrl(url: string): (r: Option<RepoInfo>)
    ensures r.Some? ==> IsSegment(r.value.owner) && IsSegment(r.value.repo) && IsSegment(r.value.branch)
  {
    ParseTrimmed(Trim(url))
  }

  /** The three patterns tried in order on an already trimmed text. */
  function ParseTrimmed(t: string): (r: Option<RepoInfo>)
    ensures r.Some? ==> IsSegment(r.value.owner) && IsSegment(r.value.repo) && IsSegment(r.value.branch)
  {
    var full := MatchFullUrl(t);
    if full.Some? then full
    else
      var host := MatchHostPath(t);
      if host.Some? then host else MatchBare(t)
  }

  // ---------------------------------------------------------------- shapes

  /** A non-empty path segment. */
  predicate IsSegment(s: string)
  {
    s != [] && '/' !in s
  }

  /**
   * The branch that the text `rest` following `owner/repo` selects: the segment
   * after a leading "/tree/" when that segment is non-empty, "main" otherwise.
   */
  ghost predicate BranchRule(rest: string, branch: string)
  {
    if |rest| > |TreeMarker| && rest[..|TreeMarker|] == TreeMarker && rest[|TreeMarker|] != '/' then
      var after := rest[|TreeMarker|..];
      IsSegment(branch) && StartsWith(after, branch) && (|after| == |branch| || after[|branch|] == '/')
    else branch == DefaultBranch
  }

  /**
   * `t` is `prefix + owner + "/" + repo` followed by text that is empty or starts
   * with '/', and the branch is what that text selects (anything after it is ignored).
   */
  ghost predicate HostedShape(t: string, prefix: string, info: RepoInfo)
  {
    var head := prefix + info.owner + "/" + info.repo;
    && IsSegment(info.owner) && IsSegment(info.repo)
    && StartsWith(t, head)
    && (|t| == |head| || t[|head|] == '/')
    && BranchRule(t[|head|..], info.branch)
  }

  /** `t` is exactly `owner + "/" + repo`, and the branch is "main". */
  ghost predicate BareShape(t: string, info: RepoInfo)
  {
    IsSegment(info.owner) && IsSegment(info.repo) && t == info.owner + "/" + info.repo
    && info.branch == DefaultBranch
  }

  /** The three URL forms the parser accepts. */
  ghost predicate UrlShape(t: string, info: RepoInfo)
  {
    || HostedShape(t, HttpsPrefix, info)
    || HostedShape(t, HttpPrefix, info)
    || HostedShape(t, HostPrefix, info)
    || BareShape(t, info)
  }

  // ---------------------------------------------------------------- proofs

  /** A greedy run is determined by where the next '/' is. */
  lemma {:induction false} RunEndAt(s: string, i: nat, j: nat)
    requires i <= j <= |s|
    requires forall k :: i <= k < j ==> s[k] != '/'
    requires j == |s| || s[j] == '/'
    ensures RunEnd(s, i) == j
    decreases j - i
  {
    if i < j {
      RunEndAt(s, i + 1, j);
    }
  }

  /** A segment standing at `start`, followed by '/' or the end, is what the greedy run takes. */
  lemma SegmentRun(t: string, start: nat, seg: string)
    requires start + |seg| <= |t| && t[start..start + |seg|] == seg && '/' !in seg
    requires start + |seg| == |t| || t[start + |seg|] == '/'
    ensures RunEnd(t, start) == start + |seg|
  {
    forall k | start <= k < start + |seg|
      ensures t[k] != '/'
    {
      assert t[k] == seg[k - start];
    }
    RunEndAt(t, start, start + |seg|);
  }

  lemma TreeBranchFollowsRule(t: string, i: nat)
    requires i <= |t|
    ensures BranchRule(t[i..], TreeBranch(t, i))
  {
    var rest := t[i..];
    var m := |TreeMarker|;
    if StartsWith(rest, TreeMarker) {
      var b0 := i + m;
      var be := RunEnd(t, b0);
      if be > b0 {
        assert rest[m] == t[b0] != '/';
        var after := rest[m..];
        assert after == t[b0..];
        assert '/' !in t[b0..be];
      }
    }
  }

  lemma TreeBranchUnique(t: string, i: nat, branch: string)
    requires i <= |t|
    requires BranchRule(t[i..], branch)
    ensures TreeBranch(t, i) == branch
  {
    var rest := t[i..];
    var m := |TreeMarker|;
    if |rest| > m && rest[..m] == TreeMarker && rest[m] != '/' {
      var b0 := i + m;
      var after := rest[m..];
      assert after == t[b0..];
      assert t[b0..b0 + |branch|] == after[..|branch|] == branch;
      assert b0 + |branch| == |t| || t[b0 + |branch|] == after[|branch|];
      SegmentRun(t, b0, branch);
    }
  }

  lemma MatchHostedSound(t: string, prefix: string)
    requires MatchHosted(t, prefix).Some?
    ensures HostedShape(t, prefix, MatchHosted(t, prefix).value)
  {
    var info := MatchHosted(t, prefix).value;
    var o0 := |prefix|;
    var oe := RunEnd(t, o0);
    var re := RunEnd(t, oe + 1);
    assert '/' !in info.owner && '/' !in info.repo;
    var head := prefix + info.owner + "/" + info.repo;
    assert t[..re] == head;
    TreeBranchFollowsRule(t, re);
  }

  /** A text that starts with `x + y` starts with `x`, and `y` follows it. */
  lemma ConcatSplit(t: string, x: string, y: string)
    requires StartsWith(t, x + y)
    ensures StartsWith(t, x) && t[|x|..|x| + |y|] == y
  {
    var n := |x| + |y|;
    assert t[..n] == x + y;
    assert t[..|x|] == t[..n][..|x|];
    assert t[|x|..n] == t[..n][|x|..];
  }

  /** The pieces of a text that starts with `prefix + owner + "/" + repo`. */
  lemma HeadParts(t: string, prefix: string, owner: string, repo: string)
    requires StartsWith(t, prefix + owner + "/" + repo)
    ensures StartsWith(t, prefix)
    ensures t[|prefix|..|prefix| + |owner|] == owner
    ensures t[|prefix| + |owner|] == '/'
    ensures t[|prefix| + |owner| + 1..|prefix| + |owner| + 1 + |repo|] == repo
  {
    var oe := |prefix| + |owner|;
    ConcatSplit(t, prefix + owner + "/", repo);
    ConcatSplit(t, prefix + owner, "/");
    assert t[oe] == t[oe..oe + 1][0];
    ConcatSplit(t, prefix, owner);
  }

  /** What the pattern captures once both greedy runs are known. */
  lemma MatchHostedAt(t: string, prefix: string, oe: nat, re: nat)
    requires StartsWith(t, prefix) && |prefix| < oe < |t| && RunEnd(t, |prefix|) == oe
    requires oe + 1 < re <= |t| && RunEnd(t, oe + 1) == re
    ensures MatchHosted(t, prefix) == Some(RepoInfo(t[|prefix|..oe], t[oe + 1..re], TreeBranch(t, re)))
  {
  }

  lemma MatchHostedComplete(t: string, prefix: string, info: RepoInfo)
    requires HostedShape(t, prefix, info)
    ensures MatchHosted(t, prefix) == Some(info)
  {
    assert |prefix + info.owner + "/" + info.repo| == |prefix| + |info.owner| + 1 + |info.repo|;
    HeadParts(t, prefix, info.owner, info.repo);
    MatchHostedParts(t, prefix, info.owner, info.repo, info.branch);
  }

  /** The match, from the pieces of the text: owner, '/', repository, and what follows them. */
  lemma MatchHostedParts(t: string, prefix: string, owner: string, repo: string, branch: string)
    requires StartsWith(t, prefix) && IsSegment(owner) && IsSegment(repo)
    requires |prefix| + |owner| + 1 + |repo| <= |t|
    requires t[|prefix|..|prefix| + |owner|] == owner && t[|prefix| + |owner|] == '/'
    requires t[|prefix| + |owner| + 1..|prefix| + |owner| + 1 + |repo|] == repo
    requires var re := |prefix| + |owner| + 1 + |repo|;
             (re == |t| || t[re] == '/') && BranchRule(t[re..], branch)
    ensures MatchHosted(t, prefix) == Some(RepoInfo(owner, repo, branch))
  {
    var oe := |prefix| + |owner|;
    var re := oe + 1 + |repo|;
    SegmentRun(t, |prefix|, owner);
    SegmentRun(t, oe + 1, repo);
    TreeBranchUnique(t, re, branch);
    MatchHostedAt(t, prefix, oe, re);
  }

  lemma MatchBareSound(t: string)
    requires MatchBare(t).Some?
    ensures BareShape(t, MatchBare(t).value)
  {
    var info := MatchBare(t).value;
    var oe := RunEnd(t, 0);
    assert '/' !in info.owner && '/' !in info.repo;
    assert t == t[..oe] + "/" + t[oe + 1..];
  }

  lemma MatchBareComplete(t: string, info: RepoInfo)
    requires BareShape(t, info)
    ensures MatchBare(t) == Some(info)
  {
    var oe := |info.owner|;
    forall k | 0 <= k < oe
      ensures t[k] != '/'
    {
      assert t[k] == info.owner[k];
    }
    RunEndAt(t, 0, oe);
    forall k | oe + 1 <= k < |t|
      ensures t[k] != '/'
    {
      assert t[k] == info.repo[k - oe - 1];
    }
    RunEndAt(t, oe + 1, |t|);
    assert t[..oe] == info.owner && t[oe + 1..] == info.repo;
  }

  /** A bare `owner/repo` has a single '/'. */
  lemma BareHasOneSlash(t: string, info: RepoInfo)
    requires BareShape(t, info)
    ensures forall k :: 0 <= k < |t| && k != |info.owner| ==> t[k] != '/'
  {
    assert forall k :: 0 <= k < |info.owner| ==> t[k] == info.owner[k];
    assert forall k :: |info.owner| < k < |t| ==> t[k] == info.repo[k - |info.owner| - 1];
  }

  /** No bare `owner/repo` is matched by pattern 1 or 2. */
  lemma BareIsNotHosted(t: string, info: RepoInfo)
    requires BareShape(t, info)
    ensures MatchFullUrl(t).None? && MatchHostPath(t).None?
  {
    BareHasOneSlash(t, info);
    NoSchemeWithoutDoubleSlash(t, HttpsPrefix, 6);
    NoSchemeWithoutDoubleSlash(t, HttpPrefix, 5);
    if StartsWith(t, HostPrefix) {
      assert t[10] == t[..|HostPrefix|][10] == '/';
      assert RunEnd(t, |HostPrefix|) == |t|;
    }
  }

  /** A prefix with "//" at `i` cannot start a text that has at most one '/' among those two places. */
  lemma NoSchemeWithoutDoubleSlash(t: string, prefix: string, i: nat)
    requires i + 1 < |prefix| && prefix[i] == '/' && prefix[i + 1] == '/'
    requires i + 1 < |t| ==> t[i] != '/' || t[i + 1] != '/'
    ensures MatchHosted(t, prefix).None?
  {
    if StartsWith(t, prefix) {
      assert false;
    }
  }

  lemma ParseSound(url: string)
    requires ParseGitHubUrl(url).Some?
    ensures UrlShape(Trim(url), ParseGitHubUrl(url).value)
  {
    var t := Trim(url);
    if MatchHosted(t, HttpsPrefix).Some? {
      MatchHostedSound(t, HttpsPrefix);
    } else if MatchHosted(t, HttpPrefix).Some? {
      MatchHostedSound(t, HttpPrefix);
    } else if MatchHostPath(t).Some? {
      MatchHostedSound(t, HostPrefix);
    } else {
      MatchBareSound(t);
    }
  }

  lemma ParseCompleteHttps(t: string, info: RepoInfo)
    requires HostedShape(t, HttpsPrefix, info)
    ensures MatchFullUrl(t) == Some(info)
  {
    MatchHostedComplete(t, HttpsPrefix, info);
  }

  lemma ParseCompleteHttp(t: string, info: RepoInfo)
    requires HostedShape(t, HttpPrefix, info)
    ensures MatchFullUrl(t) == Some(info)
  {
    MatchHostedComplete(t, HttpPrefix, info);
    PrefixMismatch(t, HttpPrefix, HttpsPrefix, 4);
  }

  lemma ParseCompleteHost(t: string, info: RepoInfo)
    requires HostedShape(t, HostPrefix, info)
    ensures MatchFullUrl(t) == None && MatchHostPath(t) == Some(info)
  {
    MatchHostedComplete(t, HostPrefix, info);
    PrefixMismatch(t, HostPrefix, HttpsPrefix, 0);
    PrefixMismatch(t, HostPrefix, HttpPrefix, 0);
  }

  /** A text starting with `p` does not start with a `q` that differs from `p` at `i`. */
  lemma PrefixMismatch(t: string, p: string, q: string, i: nat)
    requires StartsWith(t, p) && i < |p| && i < |q| && p[i] != q[i]
    ensures !StartsWith(t, q)
  {
    assert t[i] == t[..|p|][i] == p[i];
    if |q| <= |t| {
      assert t[..|q|][i] == t[i];
    }
  }

  lemma ParseComplete(url: string, info: RepoInfo)
    requires UrlShape(Trim(url), info)
    ensures ParseGitHubUrl(url) == Some(info)
  {
    var t := Trim(url);
    if HostedShape(t, HttpsPrefix, info) {
      ParseCompleteHttps(t, info);
    } else if HostedShape(t, HttpPrefix, info) {
      ParseCompleteHttp(t, info);
    } else if HostedShape(t, HostPrefix, info) {
      ParseCompleteHost(t, info);
    } else {
      MatchBareComplete(t, info);
      BareIsNotHosted(t, info);
    }
  }

  /**
   * The parser accepts exactly the three URL forms: it returns `info` for a URL
   * if and only if the trimmed URL has one of the forms with that owner,
   * repository and branch.
   */
  lemma ParseCharacterized(url: string, info: RepoInfo)
    ensures ParseGitHubUrl(url) == Some(info) <==> UrlShape(Trim(url), info)
  {
    if ParseGitHubUrl(url) == Some(info) {
      ParseSound(url);
    }
    if UrlShape(Trim(url), info) {
      ParseComplete(url, info);
    }
  }

  /** `prefix + owner + "/" + repo + rest` has the hosted form when `rest` selects the branch. */
  lemma HostedShapeOf(prefix: string, info: RepoInfo, rest: string)
    requires IsSegment(info.owner) && IsSegment(info.repo)
    requires rest == [] || rest[0] == '/'
    requires BranchRule(rest, info.branch)
    ensures HostedShape(prefix + info.owner + "/" + info.repo + rest, prefix, info)
  {
    var head := prefix + info.owner + "/" + info.repo;
    var t := head + rest;
    assert t[..|head|] == head;
    assert t[|head|..] == rest;
    assert |t| == |head| || t[|head|] == rest[0];
  }

  /** "/tree/" followed by a segment selects that segment. */
  lemma TreeRestSelects(branch: string)
    requires IsSegment(branch)
    ensures BranchRule(TreeMarker + branch, branch)
  {
    var rest := TreeMarker + branch;
    var m := |TreeMarker|;
    assert rest[..m] == TreeMarker;
    assert rest[m..] == branch;
    assert rest[m] == branch[0];
  }

  /** A concatenation that neither starts nor ends with whitespace is its own trim. */
  lemma ConcatTrimmed(x: string, y: string)
    requires x != [] && y != [] && !IsJsWhitespace(x[0]) && !IsJsWhitespace(y[|y| - 1])
    ensures Trim(x + y) == x + y
  {
    assert (x + y)[0] == x[0] && (x + y)[|x + y| - 1] == y[|y| - 1];
    TrimmedIsFixed(x + y);
  }

  /** A trimmed text of the form of pattern 1 with "https" parses to its triple. */
  lemma ParseTrimmedHttps(url: string, info: RepoInfo)
    requires Trim(url) == url && HostedShape(url, HttpsPrefix, info)
    ensures ParseGitHubUrl(url) == Some(info)
  {
    ParseCompleteHttps(url, info);
  }

  /** A trimmed text of the form of pattern 2 parses to its triple. */
  lemma ParseTrimmedHost(url: string, info: RepoInfo)
    requires Trim(url) == url && HostedShape(url, HostPrefix, info)
    ensures ParseGitHubUrl(url) == Some(info)
  {
    ParseCompleteHost(url, info);
  }

  /** A trimmed text of the form of pattern 3 parses to its triple. */
  lemma ParseTrimmedBare(url: string, info: RepoInfo)
    requires Trim(url) == url && BareShape(url, info)
    ensures ParseGitHubUrl(url) == Some(info)
  {
    MatchBareComplete(url, info);
    BareIsNotHosted(url, info);
  }

  /** `prefix + owner + "/" + repo + "/tree/" + branch` has the hosted form with that branch. */
  lemma TreeUrlShape(prefix: string, info: RepoInfo)
    requires IsSegment(info.owner) && IsSegment(info.repo) && IsSegment(info.branch)
    ensures HostedShape(prefix + info.owner + "/" + info.repo + TreeMarker + info.branch, prefix, info)
  {
    var head := prefix + info.owner + "/" + info.repo;
    assert head + TreeMarker + info.branch == head + (TreeMarker + info.branch);
    TreeRestSelects(info.branch);
    HostedShapeOf(prefix, info, TreeMarker + info.branch);
  }

  /** `prefix + owner + "/" + repo` has the hosted form with branch "main". */
  lemma PlainUrlShape(prefix: string, info: RepoInfo)
    requires IsSegment(info.owner) && IsSegment(info.repo) && info.branch == DefaultBranch
    ensures HostedShape(prefix + info.owner + "/" + info.repo, prefix, info)
  {
    var head := prefix + info.owner + "/" + info.repo;
    assert head + [] == head;
    HostedShapeOf(prefix, info, []);
  }

  /** `prefix + owner + "/" + repo + "/tree/" + branch` is its own trim and has the hosted form. */
  lemma TreeUrlFacts(prefix: string, info: RepoInfo)
    requires prefix != [] && !IsJsWhitespace(prefix[0])
    requires IsSegment(info.owner) && IsSegment(info.repo) && IsSegment(info.branch)
    requires !IsJsWhitespace(info.branch[|info.branch| - 1])
    ensures var url := prefix + info.owner + "/" + info.repo + TreeMarker + info.branch;
            Trim(url) == url && HostedShape(url, prefix, info)
  {
    var lead := prefix + info.owner + "/" + info.repo + TreeMarker;
    assert lead[0] == prefix[0];
    ConcatTrimmed(lead, info.branch);
    TreeUrlShape(prefix, info);
  }

  /** A full URL naming a branch yields that branch. */
  lemma ParseTreeUrl(owner: string, repo: string, branch: string)
    requires IsSegment(owner) && IsSegment(repo) && IsSegment(branch)
    requires !IsJsWhitespace(branch[|branch| - 1])
    ensures ParseGitHubUrl(HttpsPrefix + owner + "/" + repo + TreeMarker + branch)
            == Some(RepoInfo(owner, repo, branch))
  {
    TreeUrlFacts(HttpsPrefix, RepoInfo(owner, repo, branch));
    ParseTrimmedHttps(HttpsPrefix + owner + "/" + repo + TreeMarker + branch, RepoInfo(owner, repo, branch));
  }

  /** `prefix + owner + "/" + repo` is its own trim and has the hosted form with branch "main". */
  lemma PlainUrlFacts(prefix: string, info: RepoInfo)
    requires prefix != [] && !IsJsWhitespace(prefix[0])
    requires IsSegment(info.owner) && IsSegment(info.repo) && info.branch == DefaultBranch
    requires !IsJsWhitespace(info.repo[|info.repo| - 1])
    ensures var url := prefix + info.owner + "/" + info.repo;
            Trim(url) == url && HostedShape(url, prefix, info)
  {
    var lead := prefix + info.owner + "/";
    assert lead[0] == prefix[0];
    ConcatTrimmed(lead, info.repo);
    PlainUrlShape(prefix, info);
  }

  /** A host-qualified path without a branch yields "main". */
  lemma ParseHostPath(owner: string, repo: string)
    requires IsSegment(owner) && IsSegment(repo)
    requires !IsJsWhitespace(repo[|repo| - 1])
    ensures ParseGitHubUrl(HostPrefix + owner + "/" + repo) == Some(RepoInfo(owner, repo, DefaultBranch))
  {
    PlainUrlFacts(HostPrefix, RepoInfo(owner, repo, DefaultBranch));
    ParseTrimmedHost(HostPrefix + owner + "/" + repo, RepoInfo(owner, repo, DefaultBranch));
  }

  /** A bare `owner/repo` is its own trim and has the form of pattern 3. */
  lemma BareFacts(owner: string, repo: string)
    requires IsSegment(owner) && IsSegment(repo)
    requires !IsJsWhitespace(owner[0]) && !IsJsWhitespace(repo[|repo| - 1])
    ensures var url := owner + "/" + repo;
            Trim(url) == url && BareShape(url, RepoInfo(owner, repo, DefaultBranch))
  {
    var lead := owner + "/";
    assert lead[0] == owner[0];
    ConcatTrimmed(lead, repo);
  }

  /** A bare `owner/repo` yields "main". */
  lemma ParseBare(owner: string, repo: string)
    requires IsSegment(owner) && IsSegment(repo)
    requires !IsJsWhitespace(owner[0]) && !IsJsWhitespace(repo[|repo| - 1])
    ensures ParseGitHubUrl(owner + "/" + repo) == Some(RepoInfo(owner, repo, DefaultBranch))
  {
    BareFacts(owner, repo);
    ParseTrimmedBare(owner + "/" + repo, RepoInfo(owner, repo, DefaultBranch));
  }
}
