/**
 * The repository endpoint's POST handler: read `githubUrl` from the body,
 * parse it, try the branches `[parsed.branch, "main", "master"]` in turn
 * against GitHub's recursive-tree API until one is accepted, and list the
 * source files of the accepted tree.
 */
module GitHubRepo {
  import opened Wrappers
  import opened GitHubUrl
  import opened GitHubListing

  /**
   * The tree request for an owner, a repository and a branch, made as attempt
   * number `n` of the loop, as an oracle: the tree's entries when the response
   * is ok and its body parses, `None` when the request throws or the response
   * is not ok. The attempt number lets a repeated branch get a different answer
   * on its retry.
   */
  type TreeFetch = (string, string, string, nat) -> Option<seq<TreeEntry>>

  const UrlRequired := "GitHub URL is required"
  const InvalidUrl := "Invalid GitHub URL format"
  const NotAccessible := "Repository not found or not accessible. Make sure it's public."

  /** The parsed request body `{ githubUrl }`; an absent field is `None`. */
  datatype RepoRequest = RepoRequest(githubUrl: Option<string>)

  datatype Repository = Repository(owner: string, repo: string, branch: string, url: string)

  /** The JSON envelope the handler returns, one constructor per HTTP status. */
  datatype RepoResponse =
    | Listing(repository: Repository, files: seq<RepoFile>, totalFiles: nat)
    | BadRequest(error: string)
    | NotFound(error: string)
    | ServerError(error: string)
  {
    function Status(): nat
    {
      match this
      case Listing(_, _, _) => 200
      case BadRequest(_) => 400
      case NotFound(_) => 404
      case ServerError(_) => 500
    }
  }

  /** The branches tried, in order. */
  function CandidateBranches(info: RepoInfo): seq<string>
  {
    [info.branch, DefaultBranch, "master"]
  }

  /** `https://github.com/${owner}/${repo}`. */
  function RepositoryUrl(info: RepoInfo): string
  {
    HttpsPrefix + info.owner + "/" + info.repo
  }

  /** Branch `i` is accepted and every branch before it is refused. */
  ghost predicate IsFirstAccepted(fetch: TreeFetch, owner: string, repo: string, branches: seq<string>, i: nat)
  {
    && i < |branches|
    && fetch(owner, repo, branches[i], i).Some?
    && forall j :: 0 <= j < i ==> fetch(owner, repo, branches[j], j).None?
  }

  ghost predicate NoneAccepted(fetch: TreeFetch, owner: string, repo: string, branches: seq<string>)
  {
    forall j :: 0 <= j < |branches| ==> fetch(owner, repo, branches[j], j).None?
  }

  /**
   * The branch-fallback loop: the tree of the first branch the fetch accepts,
   * with that branch, or nothing when every branch is refused.
   */
  method FindWorkingBranch(fetch: TreeFetch, owner: string, repo: string, branches: seq<string>)
    returns (repoData: Option<seq<TreeEntry>>, workingBranch: Option<string>)
    ensures workingBranch.None? <==> NoneAccepted(fetch, owner, repo, branches)
    ensures workingBranch.None? ==> repoData.None?
    ensures workingBranch.Some? ==>
              exists i: nat :: IsFirstAccepted(fetch, owner, repo, branches, i)
                          && workingBranch.value == branches[i]
                          && repoData == fetch(owner, repo, branches[i], i)
  {
    repoData := None;
    workingBranch := None;
    for i := 0 to |branches|
      invariant workingBranch.None? && repoData.None?
      invariant forall j :: 0 <= j < i ==> fetch(owner, repo, branches[j], j).None?
    {
      var response := fetch(owner, repo, branches[i], i);
      if response.Some? {
        repoData := response;
        workingBranch := Some(branches[i]);
        assert IsFirstAccepted(fetch, owner, repo, branches, i);
        break;
      }
    }
  }

  /** `!githubUrl` is false: the field is present and not the empty string. */
  predicate HasUrl(req: RepoRequest)
  {
    req.githubUrl.Some? && req.githubUrl.value != ""
  }

  /** The success envelope for the tree fetched on attempt `i`. */
  function ListingFor(fetch: TreeFetch, info: RepoInfo, branches: seq<string>, i: nat): RepoResponse
    requires i < |branches| && fetch(info.owner, info.repo, branches[i], i).Some?
  {
    var files := CodeFiles(fetch(info.owner, info.repo, branches[i], i).value, info.owner, info.repo, branches[i]);
    Listing(Repository(info.owner, info.repo, branches[i], RepositoryUrl(info)), files, |files|)
  }

  /** What the handler answers once the URL has parsed to `info`. */
  ghost predicate AnswersFor(fetch: TreeFetch, info: RepoInfo, resp: RepoResponse)
  {
    var branches := CandidateBranches(info);
    if NoneAccepted(fetch, info.owner, info.repo, branches) then resp == NotFound(NotAccessible)
    else exists i: nat :: IsFirstAccepted(fetch, info.owner, info.repo, branches, i)
                          && resp == ListingFor(fetch, info, branches, i)
  }

  /** With both tries of "main" refused, only the third attempt can be the first accepted one. */
  lemma OnlyMasterFirst(fetch: TreeFetch, owner: string, repo: string, i: nat)
    requires fetch(owner, repo, DefaultBranch, 0).None? && fetch(owner, repo, DefaultBranch, 1).None?
    requires IsFirstAccepted(fetch, owner, repo, CandidateBranches(RepoInfo(owner, repo, DefaultBranch)), i)
    ensures i == 2
  {
  }

  /**
   * For a URL without a branch, with both tries of "main" refused and "master"
   * accepted, the handler answers with the listing of `master`.
   */
  lemma MasterFallback(fetch: TreeFetch, owner: string, repo: string, resp: RepoResponse)
    requires fetch(owner, repo, DefaultBranch, 0).None? && fetch(owner, repo, DefaultBranch, 1).None?
    requires fetch(owner, repo, "master", 2).Some?
    requires AnswersFor(fetch, RepoInfo(owner, repo, DefaultBranch), resp)
    ensures resp.Listing? && resp.repository.branch == "master"
    ensures resp == ListingFor(fetch, RepoInfo(owner, repo, DefaultBranch),
                               CandidateBranches(RepoInfo(owner, repo, DefaultBranch)), 2)
  {
    var info := RepoInfo(owner, repo, DefaultBranch);
    var branches := CandidateBranches(info);
    assert fetch(owner, repo, branches[2], 2).Some?;
    var i: nat :| IsFirstAccepted(fetch, owner, repo, branches, i) && resp == ListingFor(fetch, info, branches, i);
    OnlyMasterFirst(fetch, owner, repo, i);
  }

  /**
   * The POST handler. `body` is the parsed request body, or the message thrown
   * while reading it.
   */
  method Post(body: Result<RepoRequest>, fetch: TreeFetch) returns (resp: RepoResponse)
    ensures body.Failure? ==> resp == ServerError(body.message)
    ensures body.Success? && !HasUrl(body.value) ==> resp == BadRequest(UrlRequired)
    ensures body.Success? && HasUrl(body.value) && ParseGitHubUrl(body.value.githubUrl.value).None? ==>
              resp == BadRequest(InvalidUrl)
    ensures body.Success? && HasUrl(body.value) && ParseGitHubUrl(body.value.githubUrl.value).Some? ==>
              AnswersFor(fetch, ParseGitHubUrl(body.value.githubUrl.value).value, resp)
    ensures resp.Listing? ==> resp.totalFiles == |resp.files| && Sorted(resp.files)
    ensures resp.Status() == 500 <==> body.Failure?
    ensures resp.Status() == 400 <==>
              body.Success? && (!HasUrl(body.value) || ParseGitHubUrl(body.value.githubUrl.value).None?)
    ensures resp.Status() == 404 <==>
              body.Success? && HasUrl(body.value) && ParseGitHubUrl(body.value.githubUrl.value).Some?
              && var info := ParseGitHubUrl(body.value.githubUrl.value).value;
                 NoneAccepted(fetch, info.owner, info.repo, CandidateBranches(info))
  {
    if body.Failure? {
      return ServerError(body.message);
    }
    var githubUrl := body.value.githubUrl;
    if githubUrl.None? || githubUrl.value == "" {
      return BadRequest(UrlRequired);
    }
    var parsed := ParseGitHubUrl(githubUrl.value);
    if parsed.None? {
      return BadRequest(InvalidUrl);
    }
    var info := parsed.value;
    var repoData, workingBranch := FindWorkingBranch(fetch, info.owner, info.repo, CandidateBranches(info));
    if repoData.None? {
      return NotFound(NotAccessible);
    }
    var codeFiles := CodeFiles(repoData.value, info.owner, info.repo, workingBranch.value);
    resp := Listing(Repository(info.owner, info.repo, workingBranch.value, RepositoryUrl(info)),
                    codeFiles, |codeFiles|);
    ghost var i: nat :| IsFirstAccepted(fetch, info.owner, info.repo, CandidateBranches(info), i)
                     && workingBranch.value == CandidateBranches(info)[i]
                     && repoData == fetch(info.owner, info.repo, CandidateBranches(info)[i], i);
    assert resp == ListingFor(fetch, info, CandidateBranches(info), i);
  }
}
