/** Opening a repository (the exported constructor of lib/git-fs.js, and the
    identical one of lib/git.js): the git directory, the work tree, and the
    `gitCommands` prefix of every git invocation. */
module Repo {
  import opened Wrappers
  import opened GitTypes

  /** The module-level `gitDir`, `workTree` and `gitCommands`. */
  datatype Repo = Repo(gitDir: string, workTree: Option<string>, gitCommands: seq<string>)

  /** `Path.join(a, b)`, without its normalisation of `.`, `..` and repeated separators. */
  function JoinPath(a: string, b: string): string {
    a + "/" + b
  }

  /** The prefix of the argument vector: the git directory, and the work tree
      when the last open found one. A bare open after a work-tree open keeps the
      earlier `workTree` but passes no `--work-tree`. */
  predicate WellFormed(r: Repo) {
    || r.gitCommands == ["--git-dir=" + r.gitDir]
    || (r.workTree.Some? && r.gitCommands == ["--git-dir=" + r.gitDir, "--work-tree=" + r.workTree.value])
  }

  /** git is told about a work tree. */
  predicate PassesWorkTree(r: Repo) {
    |r.gitCommands| == 2
  }

  /** The constructor, applied to the module variables `prev` an earlier open
      left (`None` before the first): `repoExists` and `dotGitExists` are the
      outcomes of `fs.statSync(repo)` and `fs.statSync(repo/.git)`. A missing
      repository is an error that leaves the variables as they were; a `.git`
      directory makes `repo` a work tree with its git directory inside;
      otherwise `repo` is a bare repository and its own git directory, and the
      work tree of an earlier open is kept. */
  function Open(prev: Option<Repo>, repo: string, repoExists: bool, dotGitExists: bool): (r: Result<Repo, GitError>)
    ensures r.Err? <==> !repoExists
    ensures r.Err? ==> r.error == GitError(BadRepository, "Bad repo path: " + repo)
    ensures r.Ok? ==> WellFormed(r.value) && (PassesWorkTree(r.value) <==> dotGitExists)
    ensures r.Ok? && dotGitExists ==> r.value.gitDir == JoinPath(repo, ".git") && r.value.workTree == Some(repo)
    ensures r.Ok? && !dotGitExists ==> r.value.gitDir == repo
    ensures r.Ok? && !dotGitExists ==> r.value.workTree == (if prev.Some? then prev.value.workTree else None)
  {
    if !repoExists then Err(GitError(BadRepository, "Bad repo path: " + repo))
    else if dotGitExists then
      var gitDir := JoinPath(repo, ".git");
      Ok(Repo(gitDir, Some(repo), ["--git-dir=" + gitDir, "--work-tree=" + repo]))
    else Ok(Repo(repo, if prev.Some? then prev.value.workTree else None, ["--git-dir=" + repo]))
  }

  /** The module variables after an open: the new ones, or the old ones when the
      constructor throws. */
  function After(prev: Option<Repo>, r: Result<Repo, GitError>): Option<Repo> {
    if r.Ok? then Some(r.value) else prev
  }

  /** The first open of a process has a work tree exactly when it finds `.git`. */
  lemma FirstOpen(repo: string, dotGitExists: bool)
    ensures var r := Open(None, repo, true, dotGitExists);
      r.Ok? && (r.value.workTree.Some? <==> dotGitExists) && (PassesWorkTree(r.value) <==> dotGitExists)
  {
  }

  /** A bare repository opened after a work tree keeps that work tree, though
      git is no longer told about it; a failed open changes nothing. */
  lemma BareAfterWorkTree(prev: Repo, repo: string)
    requires prev.workTree.Some?
    ensures var r := Open(Some(prev), repo, true, false);
      r.Ok? && r.value.workTree == prev.workTree && !PassesWorkTree(r.value)
    ensures After(Some(prev), Open(Some(prev), repo, false, false)) == Some(prev)
  {
  }

  /** The argument vector of a git invocation: `gitCommands.concat(commands)`. */
  function Argv(r: Repo, commands: seq<string>): (argv: seq<string>)
    requires WellFormed(r)
    ensures |argv| == |r.gitCommands| + |commands|
    ensures 1 <= |r.gitCommands| <= 2
    ensures argv[0] == "--git-dir=" + r.gitDir
    ensures PassesWorkTree(r) ==> r.workTree.Some? && argv[1] == "--work-tree=" + r.workTree.value
    ensures argv[|r.gitCommands|..] == commands
  {
    r.gitCommands + commands
  }
}
