# AuditFix core logic in Dafny

A model of the self-contained logic in AuditFix, a SvelteKit security-audit front end. The rest of the application is glue around remote services. The model covers three pieces:

- **Upload validator** (`FileProcessor`):
  - which file names the upload page accepts: a case-insensitive suffix check against a 21-entry allow-list;
  - the size and type checks `validateFile` makes, in order.
- **Repository listing endpoint** (`GitHubUrl`, `GitHubListing`, `GitHubRepo`):
  - `parseGitHubUrl`: three URL forms tried in order on the trimmed text;
  - the branch-fallback loop over `[parsed.branch, "main", "master"]`;
  - the `filter`/`map`/`sort` pipeline that turns a recursive git tree into the listing;
  - the POST handler's outcomes (400, 404, 500 and success).
- **Fix-generation endpoint** (`GeminiExtract`, `GeminiFix`):
  - the request check;
  - finding the JSON text in the model's reply: fenced block, else brace span, else the whole text;
  - the fallback record when that text does not parse;
  - the `||` defaults of the answer;
  - the failure envelope with `fallback: true`.

Support modules:

- `Wrappers`: `Option`/`Result`.
- `JsString`: the JavaScript string built-ins the code calls — `trim`, ASCII `toLowerCase`, `endsWith`, `lastIndexOf`, `split(c).pop()`, `substring`, number formatting and an ordinal comparison in place of `localeCompare`. It adds `ToUpper`, used only to state case-insensitivity, and prefix and occurrence scans (`StartsWith`, `StartsWithAny`, `IndexOf`) that implement the regular expressions of the URL patterns, the excluded-directory test and the JSON extraction.
- `JsonValue`: JSON values with JavaScript truthiness, `a || b` and property reads.

## Modelling choices

- **Outside services are oracles.** The GitHub tree request is a function `(owner, repo, branch, attempt) -> Option<entries>`. The attempt number is the position in the branch list. For a URL without a branch that list is `main`, `main`, `master`, and the second try of `main` may succeed where the first failed. The model call is a function from the prompt's fields to an `Upstream` outcome. `JSON.parse` is a function `string -> Option<Json>`. The request body is a `Result`: the parsed fields, or the message thrown while reading them.
- **The clock is a parameter.** `new Date().toISOString()` becomes the `now` string.
- **The branch-fallback loop stays imperative.** `GitHubRepo.FindWorkingBranch` keeps the `for` loop, the `break` and the two updated variables.
- **`let parsedResponse` stays imperative.** It is assigned in the `try` or in the `catch`, as a local of `GeminiFix.Post`.
- **The rest is pure functions and lemmas.** `parseGitHubUrl` is an early-return search without state modelled this way, and so is the `filter`/`map`/`sort` chain.
- **Regular expressions are written out as scans.** Greedy `[^/]+` captures become `RunEnd`. The lazy fenced-block capture becomes the first closing fence after the first opening fence. The greedy brace span runs from the first `{` to the last `}`. Each scan is proved equal to a declarative description of its match (`HostedShape`, `BareShape`, `LeftmostFence`, `BraceSpan`) in both directions.
- **The URL patterns cannot overlap, so their order never changes the result.** A pattern-1 URL starts with `http`. A pattern-2 path starts with `github.com/` and has at least two slashes. A bare `owner/repo` has exactly one.
- **Excluded directories are matched at the start of the path.** The exclusion pattern is anchored with `^`. So only a leading `node_modules/`, `.git/`, `dist/`, `build/`, `target/`, `vendor/` or `.next/` removes a file. A nested one does not: `src/node_modules/x.js` is listed (`GitHubListing.NestedExcludedDirectoryKept`).
- **The two allow-lists differ, and each is copied from the code.** The listing's list has 18 entries, without `.html`, `.css` and `.scss`. The upload validator's list has 21.
- **`JSON.parse` returning `null` fails.** Reading `parsedResponse.fixedCode` then throws a `TypeError`. The handler answers 500 with V8's message for that error.

## Model

| member | source | states |
|---|---|---|
| FileProcessor.IsSupportedFileType | src/lib/fileProcessor.ts:34-42 | a name is supported exactly when one of the 21 listed extensions ends its lower-cased form |
| FileProcessor.SupportedIffLastExtensionListed | src/lib/fileProcessor.ts:34-42 | independent characterisation: supported exactly when the name has a dot and the lower-cased text from its last dot on is a listed extension |
| FileProcessor.SupportIsCaseInsensitive | src/lib/fileProcessor.ts:41 | a name and its upper-cased form get the same answer |
| FileProcessor.ValidateFile | src/lib/fileProcessor.ts:83-99 | valid exactly when 0 < size <= 5*1024*1024 and the name is supported; no error exactly when valid; every error is one of the three messages; each message appears exactly under its own condition, so "too large" beats "unsupported", which beats "empty" |
| FileProcessor.SizeBoundary | src/lib/fileProcessor.ts:85-87 | 5,242,880 bytes passes the size check (and is valid for a supported name); 5,242,881 bytes gives 'File too large (max 5MB)' |
| FileProcessor.TextFileUnsupported | src/lib/fileProcessor.ts:34-42 | a name ending in ".txt" is not supported, whatever precedes it (`notes.js.txt` included) |
| FileProcessor.UnsupportedBeatsEmpty | src/lib/fileProcessor.ts:85-97 | an empty file whose name ends in ".txt" is reported as 'Unsupported file type', not 'File is empty' |
| JsString.Trim | src/routes/api/github-repo/+server.ts:29 | `trim()`: the result is a contiguous slice of the input, with no JavaScript whitespace at either end |
| JsString.AfterLast | src/routes/api/github-repo/+server.ts:111-113 | `split(c).pop()`: a `c`-free suffix of the input, the whole input when there is no `c`, otherwise preceded by a `c` |
| JsString.EndsWithAnyDotExtension | src/lib/fileProcessor.ts:41 | against dot extensions, `some(ext => s.toLowerCase().endsWith(ext))` holds exactly when the lower-cased text from the last dot is in the list |
| JsString.NatToStringRoundTrip | src/routes/api/gemini-fix/+server.ts:112 | the decimal text of a status code reads back as that number, with no leading zero |
| JsString.CompareAntisymmetric | src/routes/api/github-repo/+server.ts:120-123 | the substitute for `localeCompare` is antisymmetric |
| JsString.CompareTransitive | src/routes/api/github-repo/+server.ts:120-123 | the substitute for `localeCompare` is transitive, and returns 0 only on equal strings (`JsString.CompareZeroIffEqual`) |
| JsonValue.Or | src/routes/api/gemini-fix/+server.ts:142-144 | `a \|\| b` is `a` when `a` is truthy and `b` otherwise; the result is truthy exactly when one operand is |
| GitHubUrl.MatchHosted | src/routes/api/github-repo/+server.ts:23-24 | a match of patterns 1-2 has a non-empty, '/'-free owner, repository and branch |
| GitHubUrl.MatchBare | src/routes/api/github-repo/+server.ts:25 | a match of pattern 3 has '/'-free, non-empty parts and branch "main" |
| GitHubUrl.ParseGitHubUrl | src/routes/api/github-repo/+server.ts:21-39 | the trimmed text goes to `GitHubUrl.ParseTrimmed`, which tries the three patterns in order; on success, owner, repository and branch are non-empty and contain no '/' |
| GitHubUrl.TreeBranchFollowsRule | src/routes/api/github-repo/+server.ts:23-34 | the branch taken after `owner/repo` is the non-empty segment after "/tree/", else "main"; any other trailing text is ignored |
| GitHubUrl.TreeBranchUnique | src/routes/api/github-repo/+server.ts:23-34 | that branch rule determines the branch: any branch satisfying it is the one taken |
| GitHubUrl.MatchHostedSound | src/routes/api/github-repo/+server.ts:23-24 | whatever patterns 1-2 return is a prefix, owner, '/', repository, then the end or a '/' introducing the branch rule's text |
| GitHubUrl.MatchHostedComplete | src/routes/api/github-repo/+server.ts:23-24 | every text of that shape is matched with exactly that owner, repository and branch |
| GitHubUrl.MatchBareSound | src/routes/api/github-repo/+server.ts:25 | a pattern-3 match means the whole text is `owner/repo` |
| GitHubUrl.MatchBareComplete | src/routes/api/github-repo/+server.ts:25 | the whole text `owner/repo` with two '/'-free, non-empty parts is matched with those parts |
| GitHubUrl.BareHasOneSlash | src/routes/api/github-repo/+server.ts:25 | a bare `owner/repo` has its single '/' directly after the owner |
| GitHubUrl.BareIsNotHosted | src/routes/api/github-repo/+server.ts:23-25 | a bare `owner/repo` is matched by neither pattern 1 nor pattern 2, so the order of the patterns does not matter |
| GitHubUrl.ParseSound | src/routes/api/github-repo/+server.ts:21-39 | every successful parse has one of the three accepted forms, over the trimmed text |
| GitHubUrl.ParseComplete | src/routes/api/github-repo/+server.ts:21-39 | every trimmed text of one of those forms parses to exactly its owner, repository and branch |
| GitHubUrl.ParseCharacterized | src/routes/api/github-repo/+server.ts:21-39 | the parse returns a triple exactly when the trimmed URL has one of the three forms with that triple |
| GitHubUrl.ParseTreeUrl | src/routes/api/github-repo/+server.ts:23-34 | `https://github.com/o/r/tree/b` yields owner o, repository r, branch b |
| GitHubUrl.ParseHostPath | src/routes/api/github-repo/+server.ts:24-34 | `github.com/o/r` yields owner o, repository r, branch "main" |
| GitHubUrl.ParseBare | src/routes/api/github-repo/+server.ts:25-34 | `o/r` yields owner o, repository r, branch "main" |
| GitHubListing.FilterCodeFiles | src/routes/api/github-repo/+server.ts:99-106 | every kept entry is a code file (`GitHubListing.IsCodeFile`: a blob under 1,000,000 bytes, with a listed extension, outside the excluded leading directories), and each code file is kept as often as it occurs |
| GitHubListing.NestedExcludedDirectoryKept | src/routes/api/github-repo/+server.ts:105 | only the leading directory is excluded: `src/node_modules/<name>.js` is a code file |
| GitHubListing.JsPathHasCodeExtension | src/routes/api/github-repo/+server.ts:102 | every path ending in ".js" has a listed extension |
| GitHubListing.Directory | src/routes/api/github-repo/+server.ts:112 | with a '/', the path is `directory + "/" + displayName`; without one, the directory is empty |
| GitHubListing.DisplayName | src/routes/api/github-repo/+server.ts:111 | the display name has no '/', and is the whole path when the path has none |
| GitHubListing.ToRepoFile | src/routes/api/github-repo/+server.ts:107-117 | path, size and sha are copied; the path is rebuilt from directory and display name; owner, repository and branch are the ones given |
| GitHubListing.ExtensionIsMatched | src/routes/api/github-repo/+server.ts:102-113 | for a code file, "." + `extension` (`GitHubListing.Extension`) is the one listed extension that ends the lower-cased path |
| GitHubListing.FileLeTotal | src/routes/api/github-repo/+server.ts:118-124 | the comparator `GitHubListing.CompareFiles` orders any two files one way or the other |
| GitHubListing.FileLeTransitive | src/routes/api/github-repo/+server.ts:118-124 | the comparator (directory first, then display name) is transitive |
| GitHubListing.InsertSorted | src/routes/api/github-repo/+server.ts:118-124 | inserting into a sorted list keeps it sorted |
| GitHubListing.SortFiles | src/routes/api/github-repo/+server.ts:118-124 | the sorted list is a permutation of its input, ordered by directory, then by display name |
| GitHubListing.CodeFiles | src/routes/api/github-repo/+server.ts:99-124 | the listing is sorted and is a permutation of the mapped code files |
| GitHubListing.CodeFileOrigin | src/routes/api/github-repo/+server.ts:99-117 | every listed file is the mapping of a code file of the tree |
| GitHubListing.CodeFileListed | src/routes/api/github-repo/+server.ts:99-117 | every code file of the tree is listed |
| GitHubListing.ListedFileProperties | src/routes/api/github-repo/+server.ts:96-117 | every listed file has the size bound, a listed extension, no excluded leading directory, the matched extension, the path split and the given owner, repository and branch |
| GitHubRepo.FindWorkingBranch | src/routes/api/github-repo/+server.ts:61-86 | no branch is found exactly when every attempt is refused; otherwise the branch and tree are those of the first attempt the fetch accepts |
| GitHubRepo.MasterFallback | src/routes/api/github-repo/+server.ts:60-93 | for a URL without a branch, with both tries of "main" refused and "master" accepted, the handler's answer is the listing fetched from `master`, with branch "master" |
| GitHubRepo.Post | src/routes/api/github-repo/+server.ts:41-149 | 500 with the thrown message for an unreadable body; 400 'GitHub URL is required' for a missing or empty URL (`GitHubRepo.HasUrl`); 400 'Invalid GitHub URL format' when it does not parse; 404 when every branch of `GitHubRepo.CandidateBranches` is refused; otherwise the listing of the first accepted branch, with the repository URL `GitHubRepo.RepositoryUrl`, and `totalFiles` equal to the number of files, which are sorted; the status is 500, 400 or 404 (`RepoResponse.Status`) exactly under those conditions |
| GeminiExtract.FindFence | src/routes/api/gemini-fix/+server.ts:127 | the fenced-block search finds the leftmost opening fence and the first closing fence after it, and fails exactly when no opening fence is followed by a closing one |
| GeminiExtract.FindBraces | src/routes/api/gemini-fix/+server.ts:127 | the brace search finds the first '{' and the last '}' after it, and fails exactly when no '{' precedes a '}' |
| GeminiExtract.LeftmostFenceUnique | src/routes/api/gemini-fix/+server.ts:127 | the leftmost fenced block is unique |
| GeminiExtract.FencedCandidate | src/routes/api/gemini-fix/+server.ts:127-128 | with a fenced block, the candidate `GeminiExtract.JsonCandidate` is its lazily captured content, which contains no closing fence, or the whole matched block when that content is empty |
| GeminiExtract.BraceCandidate | src/routes/api/gemini-fix/+server.ts:127-128 | without a fenced block, the candidate `GeminiExtract.JsonCandidate` is the span from the first '{' to the last '}' |
| GeminiExtract.WholeTextCandidate | src/routes/api/gemini-fix/+server.ts:128 | with neither match, the candidate `GeminiExtract.JsonCandidate` is the whole reply |
| GeminiFix.TruncatedExplanation | src/routes/api/gemini-fix/+server.ts:134 | at most 503 characters, ending in "...", starting with a prefix of the reply; the whole reply plus "..." when it has at most 500 characters |
| GeminiFix.Assemble | src/routes/api/gemini-fix/+server.ts:139-147 | each field, read with `JsonValue.Get`, is the parsed value when truthy and otherwise its default (original code, 'Security fix applied', []); the issue and the time are passed through; with truthy original code, `fixedCode` and `explanation` are truthy |
| GeminiFix.ParseFailureAnswer | src/routes/api/gemini-fix/+server.ts:130-147 | when the reply does not parse, the answer assembled from the record `GeminiFix.FallbackRecord` keeps the original code, explains with the truncated reply (at most 503 characters, ending in "..."), and gives the two fixed recommendations |
| GeminiFix.Post | src/routes/api/gemini-fix/+server.ts:26-160 | 500 with the thrown message for an unreadable body; 400 'Missing required fields: originalCode or issue' when either is falsy (`GeminiFix.HasRequiredFields`); the prompt sent to the model carries `language` (`GeminiFix.Language`) "javascript" when the request has none, and the given value otherwise, even `null`; 500 with `fallback` for a thrown call, a non-ok status ('Gemini API error: <status> <text>', `GeminiFix.UpstreamError`) or no candidate; otherwise the fallback answer on a parse failure, 500 for a parsed `null`, and the assembled answer for any other value; the status (`FixResponse.Status`) is 400 exactly for a missing field, and `fallback: true` (`FixResponse.Fallback`) is set exactly on the 500 envelopes |

## Left out

- **Network calls are oracles.** The HTTP requests to GitHub and the Gemini API, and reading request and response bodies, appear only through their outcomes. Headers, URLs, query strings and the `GITHUB_TOKEN` / `GEMINI_API_KEY` environment lookups are not modelled.
- **`JSON.parse` is an oracle.** Its grammar is not modelled.
- **An accepted tree request always yields a tree.** The tree oracle answers `None` for a refused attempt, including one whose body fails to read, and `Some(entries)` otherwise. The code also stops the loop on an `ok` response whose JSON body is falsy, such as `null`. It then answers 404 without trying the remaining branches. The model cannot express that case: it would try the next branch. GitHub answers every successful tree request with a tree object.
- **Property reads cover only the three answer keys.** `JsonValue.Get` is defined for `fixedCode`, `explanation` and `recommendations`, the names the handler reads. It does not model inherited properties such as `length` or `constructor`, which no read in the core reaches.
- **Most runtime `TypeError` paths are not modelled.** The model takes some fields to have the shape the code reads: `repoData.tree` is present, `githubUrl` is a string, and the candidate text is a string. Only a parsed `null` is modelled, because it is the one such path a well-formed reply can reach.
- **The prompt text is not modelled.** The prompt template's wording, `generationConfig` and `safetySettings` are constant payloads, and the sampling parameters are floating point. `GeminiFix.PromptFor` keeps only the request fields the prompt embeds.
- **The system clock and logging are not modelled.** `new Date().toISOString()` is the `now` parameter; `console.error` has no observable effect on the answer.
- GitHubListing.SortFiles: orders by ordinal code-point comparison in place of `localeCompare` collation. It does not state that the order of files with equal keys is kept.
- JsString.ToLower: folds only ASCII letters, unlike the full Unicode `toLowerCase`.
- GeminiFix.TruncatedExplanation: counts characters, not UTF-16 code units, in `substring(0, 500)`.
- `analyzeFile` in src/lib/fileProcessor.ts is not part of this model. It is FormData and fetch plumbing to the analysis backend.
- src/routes/api/anal/+server.ts is not part of this model. It forwards requests.
- The constant CORS `OPTIONS` handlers, the Tailwind configuration and the re-exports in src/lib/index.ts are not part of this model.
