/**
 * The listing step of the repository endpoint: from the entries of a
 * recursive git tree to the sorted list of source files shown to the user.
 * Entries are kept when they are blobs under 1,000,000 bytes whose lower-cased
 * path ends with a listed extension and whose path does not start in an
 * excluded top-level directory; each kept entry is split into its directory and
 * file name; the list is sorted by directory, then by file name.
 */
module GitHubListing {
  import opened JsString

  /** The extensions listed (18 entries: the upload list without .html, .css and .scss). */
  const CodeExtensions: seq<string> := [
    ".js", ".ts", ".jsx", ".tsx", ".py", ".go", ".java", ".php", ".rb",
    ".cs", ".cpp", ".c", ".rs", ".kt", ".json", ".yml", ".yaml", ".env"
  ]

  /** Entries of this many bytes or more are left out. */
  const MaxFileSize: nat := 1000000

  /** `^(node_modules|\.git|dist|build|target|vendor|\.next)\/`: leading directories left out. */
  const ExcludedDirectories: seq<string> := [
    "node_modules/", ".git/", "dist/", "build/", "target/", "vendor/", ".next/"
  ]

  /** One entry of the tree: `kind` is the entry's `type` ("blob", "tree", "commit"). */
  datatype TreeEntry = TreeEntry(path: string, kind: string, size: nat, sha: string)

  /** One listed file, as the endpoint returns it. */
  datatype RepoFile = RepoFile(
    path: string, size: nat, sha: string,
    displayName: string, directory: string, extension: string,
    owner: string, repo: string, branch: string)

  // ---------------------------------------------------------------- filter

  predicate HasCodeExtension(path: string)
  {
    EndsWithAny(ToLower(path), CodeExtensions)
  }

  /** Only the first path segment is compared; case matters here. */
  predicate InExcludedDirectory(path: string)
  {
    StartsWithAny(path, ExcludedDirectories)
  }

  predicate IsCodeFile(e: TreeEntry)
  {
    && e.kind == "blob"
    && HasCodeExtension(e.path)
    && e.size < MaxFileSize
    && !InExcludedDirectory(e.path)
  }

  /** The `filter` step: exactly the code files of the tree, each as often as it occurs. */
  function FilterCodeFiles(tree: seq<TreeEntry>): (r: seq<TreeEntry>)
    ensures forall e :: e in r ==> IsCodeFile(e)
    ensures forall e :: multiset(r)[e] == if IsCodeFile(e) then multiset(tree)[e] else 0
  {
    if tree == [] then []
    else
      assert tree == [tree[0]] + tree[1..];
      (if IsCodeFile(tree[0]) then [tree[0]] else []) + FilterCodeFiles(tree[1..])
  }

  // ---------------------------------------------------------------- map

  /** `path.includes('/') ? path.substring(0, path.lastIndexOf('/')) : ''`. */
  function Directory(path: string): (r: string)
    ensures '/' in path ==> path == r + "/" + DisplayName(path)
    ensures '/' !in path ==> r == []
  {
    if '/' in path then
      var d := LastIndexOf(path, '/');
      assert path == path[..d] + [path[d]] + path[d + 1..];
      path[..d]
    else ""
  }

  /** `path.split('/').pop()`: the text after the last '/'. */
  function DisplayName(path: string): (r: string)
    ensures '/' !in r
    ensures '/' !in path ==> r == path
  {
    AfterLast(path, '/')
  }

  /** `path.split('.').pop()?.toLowerCase()`. */
  function Extension(path: string): string
  {
    ToLower(AfterLast(path, '.'))
  }

  /** The `map` step for one entry. */
  function ToRepoFile(e: TreeEntry, owner: string, repo: string, branch: string): (f: RepoFile)
    ensures f.path == e.path && f.size == e.size && f.sha == e.sha
    ensures '/' !in f.displayName
    ensures '/' in e.path ==> e.path == f.directory + "/" + f.displayName
    ensures '/' !in e.path ==> f.directory == [] && f.displayName == e.path
    ensures f.owner == owner && f.repo == repo && f.branch == branch
  {
    RepoFile(e.path, e.size, e.sha, DisplayName(e.path), Directory(e.path),
             Extension(e.path), owner, repo, branch)
  }

  function ToRepoFiles(es: seq<TreeEntry>, owner: string, repo: string, branch: string): (r: seq<RepoFile>)
    ensures |r| == |es|
    ensures forall i :: 0 <= i < |es| ==> r[i] == ToRepoFile(es[i], owner, repo, branch)
  {
    seq(|es|, i requires 0 <= i < |es| => ToRepoFile(es[i], owner, repo, branch))
  }

  lemma CodeExtensionsAreDotExtensions()
    ensures forall i :: 0 <= i < |CodeExtensions| ==> IsDotExtension(CodeExtensions[i])
  {
  }

  /** The text from the last dot of a path is "." + `Extension`, once lower-cased. */
  lemma LastDotSuffix(path: string)
    requires LastIndexOf(path, '.') != -1
    ensures ToLower(path[LastIndexOf(path, '.')..]) == "." + Extension(path)
  {
    var d := LastIndexOf(path, '.');
    var lower := ToLower(path[d..]);
    var ext := "." + ToLower(path[d + 1..]);
    assert AfterLast(path, '.') == path[d + 1..];
    forall i | 0 <= i < |lower|
      ensures lower[i] == ext[i]
    {
      if i > 0 {
        assert path[d..][i] == path[d + 1..][i - 1];
      }
    }
  }

  /**
   * The `extension` field is the listed extension the path matched, without its
   * dot: exactly one listed extension ends the lower-cased path, and it is
   * "." followed by that field.
   */
  lemma ExtensionIsMatched(path: string)
    requires HasCodeExtension(path)
    ensures "." + Extension(path) in CodeExtensions
    ensures EndsWith(ToLower(path), "." + Extension(path))
    ensures forall i :: 0 <= i < |CodeExtensions| && EndsWith(ToLower(path), CodeExtensions[i]) ==>
              CodeExtensions[i] == "." + Extension(path)
  {
    CodeExtensionsAreDotExtensions();
    EndsWithAnyDotExtension(path, CodeExtensions);
    LastDotSuffix(path);
    var ext := "." + Extension(path);
    assert ext in CodeExtensions;
    var k :| 0 <= k < |CodeExtensions| && CodeExtensions[k] == ext;
    EndsWithDotExtension(path, ext);
    forall i | 0 <= i < |CodeExtensions| && EndsWith(ToLower(path), CodeExtensions[i])
      ensures CodeExtensions[i] == ext
    {
      EndsWithDotExtension(path, CodeExtensions[i]);
    }
  }

  // ---------------------------------------------------------------- sort

  /** The comparator: by directory first, then by file name. */
  function CompareFiles(a: RepoFile, b: RepoFile): int
  {
    if a.directory != b.directory then Compare(a.directory, b.directory)
    else Compare(a.displayName, b.displayName)
  }

  /** `a` may come before `b`. */
  predicate FileLe(a: RepoFile, b: RepoFile)
  {
    CompareFiles(a, b) <= 0
  }

  predicate Sorted(fs: seq<RepoFile>)
  {
    forall i, j :: 0 <= i < j < |fs| ==> FileLe(fs[i], fs[j])
  }

  lemma FileLeTotal(a: RepoFile, b: RepoFile)
    ensures FileLe(a, b) || FileLe(b, a)
  {
    CompareAntisymmetric(a.directory, b.directory);
    CompareAntisymmetric(a.displayName, b.displayName);
  }

  lemma FileLeTransitive(a: RepoFile, b: RepoFile, c: RepoFile)
    requires FileLe(a, b) && FileLe(b, c)
    ensures FileLe(a, c)
  {
    CompareZeroIffEqual(a.directory, b.directory);
    CompareZeroIffEqual(b.directory, c.directory);
    CompareZeroIffEqual(a.directory, c.directory);
    if a.directory == b.directory && b.directory == c.directory {
      CompareTransitive(a.displayName, b.displayName, c.displayName);
    } else if a.directory != b.directory && b.directory != c.directory {
      CompareTransitive(a.directory, b.directory, c.directory);
      CompareAntisymmetric(a.directory, b.directory);
    }
  }

  /** Insert `x` before the first element it may precede. */
  function Insert(x: RepoFile, fs: seq<RepoFile>): (r: seq<RepoFile>)
    ensures multiset(r) == multiset(fs) + multiset{x}
  {
    if fs == [] || FileLe(x, fs[0]) then [x] + fs
    else
      assert fs == [fs[0]] + fs[1..];
      [fs[0]] + Insert(x, fs[1..])
  }

  /** `x` may precede every element of a sorted list that it may precede the head of. */
  lemma PrecedesSorted(x: RepoFile, fs: seq<RepoFile>)
    requires Sorted(fs) && fs != [] && FileLe(x, fs[0])
    ensures forall j :: 0 <= j < |fs| ==> FileLe(x, fs[j])
  {
    forall j | 0 < j < |fs|
      ensures FileLe(x, fs[j])
    {
      FileLeTransitive(x, fs[0], fs[j]);
    }
  }

  /** A list whose head may precede every later element, and whose tail is sorted, is sorted. */
  lemma ConsSorted(y: RepoFile, rest: seq<RepoFile>)
    requires Sorted(rest)
    requires forall z :: z in rest ==> FileLe(y, z)
    ensures Sorted([y] + rest)
  {
    var r := [y] + rest;
    forall i, j | 0 <= i < j < |r|
      ensures FileLe(r[i], r[j])
    {
      if i == 0 {
        assert r[j] == rest[j - 1];
      } else {
        assert r[i] == rest[i - 1] && r[j] == rest[j - 1];
      }
    }
  }

  lemma {:induction false} InsertSorted(x: RepoFile, fs: seq<RepoFile>)
    requires Sorted(fs)
    ensures Sorted(Insert(x, fs))
  {
    if fs == [] {
    } else if FileLe(x, fs[0]) {
      PrecedesSorted(x, fs);
      ConsSorted(x, fs);
    } else {
      FileLeTotal(x, fs[0]);
      var rest := Insert(x, fs[1..]);
      InsertSorted(x, fs[1..]);
      forall z | z in rest
        ensures FileLe(fs[0], z)
      {
        assert z in multiset(rest);
        if z != x {
          assert z in fs[1..];
        }
      }
      ConsSorted(fs[0], rest);
    }
  }

  /** The `sort` step, as an insertion sort. */
  function SortFiles(fs: seq<RepoFile>): (r: seq<RepoFile>)
    ensures multiset(r) == multiset(fs)
    ensures Sorted(r)
  {
    if fs == [] then []
    else
      assert fs == [fs[0]] + fs[1..];
      InsertSorted(fs[0], SortFiles(fs[1..]));
      Insert(fs[0], SortFiles(fs[1..]))
  }

  // ---------------------------------------------------------------- pipeline

  /**
   * `tree.filter(...).map(...).sort(...)`: a sorted permutation of the mapped
   * code files of the tree.
   */
  function CodeFiles(tree: seq<TreeEntry>, owner: string, repo: string, branch: string): (r: seq<RepoFile>)
    ensures Sorted(r)
    ensures multiset(r) == multiset(ToRepoFiles(FilterCodeFiles(tree), owner, repo, branch))
  {
    SortFiles(ToRepoFiles(FilterCodeFiles(tree), owner, repo, branch))
  }

  /** A kept entry is a code file of the tree. */
  lemma KeptIsCodeFile(tree: seq<TreeEntry>, e: TreeEntry)
    requires e in FilterCodeFiles(tree)
    ensures e in tree && IsCodeFile(e)
  {
    var kept := FilterCodeFiles(tree);
    assert e in multiset(kept);
    assert multiset(tree)[e] > 0;
  }

  /** A mapped file is the mapping of some kept entry. */
  lemma MappedFrom(kept: seq<TreeEntry>, owner: string, repo: string, branch: string, f: RepoFile)
    requires f in ToRepoFiles(kept, owner, repo, branch)
    ensures exists e :: e in kept && f == ToRepoFile(e, owner, repo, branch)
  {
    var mapped := ToRepoFiles(kept, owner, repo, branch);
    var i :| 0 <= i < |mapped| && mapped[i] == f;
    assert kept[i] in kept;
  }

  /** Every listed file comes from a code file of the tree. */
  lemma {:induction false} CodeFileOrigin(tree: seq<TreeEntry>, owner: string, repo: string, branch: string, f: RepoFile)
    requires f in CodeFiles(tree, owner, repo, branch)
    ensures exists e :: e in tree && IsCodeFile(e) && f == ToRepoFile(e, owner, repo, branch)
  {
    var kept := FilterCodeFiles(tree);
    var mapped := ToRepoFiles(kept, owner, repo, branch);
    assert f in multiset(CodeFiles(tree, owner, repo, branch));
    assert f in multiset(mapped);
    MappedFrom(kept, owner, repo, branch, f);
    var e :| e in kept && f == ToRepoFile(e, owner, repo, branch);
    KeptIsCodeFile(tree, e);
  }

  /** Every code file of the tree is listed, once per occurrence. */
  lemma FilterKeepsCodeFile(tree: seq<TreeEntry>, e: TreeEntry)
    requires e in tree && IsCodeFile(e)
    ensures e in FilterCodeFiles(tree)
  {
    var kept := FilterCodeFiles(tree);
    assert multiset(kept)[e] == multiset(tree)[e];
    assert e in multiset(kept);
  }

  lemma MapAndSortKeep(kept: seq<TreeEntry>, e: TreeEntry, owner: string, repo: string, branch: string)
    requires e in kept
    ensures ToRepoFile(e, owner, repo, branch) in SortFiles(ToRepoFiles(kept, owner, repo, branch))
  {
    var i :| 0 <= i < |kept| && kept[i] == e;
    var mapped := ToRepoFiles(kept, owner, repo, branch);
    assert mapped[i] in multiset(mapped);
  }

  /** Every code file of the tree is listed. */
  lemma CodeFileListed(tree: seq<TreeEntry>, owner: string, repo: string, branch: string, e: TreeEntry)
    requires e in tree && IsCodeFile(e)
    ensures ToRepoFile(e, owner, repo, branch) in CodeFiles(tree, owner, repo, branch)
  {
    FilterKeepsCodeFile(tree, e);
    MapAndSortKeep(FilterCodeFiles(tree), e, owner, repo, branch);
  }

  /** What every listed file satisfies. */
  lemma ListedFileProperties(tree: seq<TreeEntry>, owner: string, repo: string, branch: string, f: RepoFile)
    requires f in CodeFiles(tree, owner, repo, branch)
    ensures f.size < MaxFileSize
    ensures HasCodeExtension(f.path) && !InExcludedDirectory(f.path)
    ensures "." + f.extension in CodeExtensions && EndsWith(ToLower(f.path), "." + f.extension)
    ensures '/' !in f.displayName
    ensures '/' in f.path ==> f.path == f.directory + "/" + f.displayName
    ensures '/' !in f.path ==> f.directory == [] && f.displayName == f.path
    ensures f.owner == owner && f.repo == repo && f.branch == branch
  {
    CodeFileOrigin(tree, owner, repo, branch, f);
    var e :| e in tree && IsCodeFile(e) && f == ToRepoFile(e, owner, repo, branch);
    ExtensionIsMatched(e.path);
  }

  /** Any path ending in ".js" has a listed extension. */
  lemma JsPathHasCodeExtension(stem: string)
    ensures HasCodeExtension(stem + ".js")
  {
    var path := stem + ".js";
    LowerOfSuffix(path, |stem|);
    assert path[|stem|..] == ".js";
    assert EndsWith(ToLower(path), CodeExtensions[0]);
  }

  /** Only the leading directory is excluded: a nested `node_modules/` is listed. */
  lemma NestedExcludedDirectoryKept(name: string, size: nat, sha: string)
    requires size < MaxFileSize
    ensures IsCodeFile(TreeEntry("src/node_modules/" + name + ".js", "blob", size, sha))
  {
    var path := "src/node_modules/" + name + ".js";
    JsPathHasCodeExtension("src/node_modules/" + name);
    forall i | 0 <= i < |ExcludedDirectories|
      ensures !StartsWith(path, ExcludedDirectories[i])
    {
      var d := ExcludedDirectories[i];
      assert d[0] != 's';
      assert path[0] == 's';
    }
  }
}
