/** `describeGithubProject(repoUrl)`: parse the URL, fetch the README and
    the repository metadata, clone, analyse, summarise, clean up. Every
    call to the outside world is a field of `Environment`, and the calls
    that change or query the outside world are recorded, in order, as
    `Effect`s. */
module Pipeline {
  import opened Wrappers
  import opened Text
  import opened FileTree
  import opened Analyzer
  import opened Classifier
  import opened Excerpts
  import opened Plagiarism
  import opened Summaries
  import opened RepoUrl

  const InvalidUrlMessage: string := "Invalid GitHub URL."
  const NoReadmeMessage: string := "Could not fetch README.md from the repository."
  const CloneFailedMessage: string := "Failed to clone repository."

  /** The six JSON bodies of the repository API, kept as they come. */
  datatype Metadata = Metadata(repoInfo: string, contributors: string, languages: string,
                               issues: string, pulls: string, commits: string)

  /** What the summary request is built from. */
  datatype SummaryRequest = SummaryRequest(readme: string, analysis: Analysis, contractsSummary: string,
                                           archSummary: string, apiSummary: string)

  /** The outside world as the function sees it.
      `fetchReadme(owner, repo)`: the README text, `None` for `null`.
      `metadata(owner, repo)`: the six API bodies, `None` when `Promise.all` rejects.
      `tempRoot`: `/tmp`, or `TEMP` on Windows; `stamp`: `Date.now()` as text.
      `clone(url, dir)`: the top-level entries of the clone, `None` when `git` fails.
      `parseDeps`, `ask`: as in the analysis and the plagiarism check.
      `summarize(request)`: the summary text, `None` when the call rejects. */
  datatype Environment = Environment(
    fetchReadme: (string, string) -> Option<string>,
    metadata: (string, string) -> Option<Metadata>,
    tempRoot: string,
    stamp: string,
    clone: (string, string) -> Option<seq<Node>>,
    parseDeps: string -> Option<seq<string>>,
    ask: string -> Option<string>,
    summarize: SummaryRequest -> Option<string>)

  /** The outside calls, in the order they happen. */
  datatype Effect =
    | FetchReadme(owner: string, repo: string)
    | FetchMetadata(owner: string, repo: string)
    | Clone(url: string, dir: string)
    | Ask(file: string)
    | Summarize
    | RemoveDir(dir: string)

  /** How the call ends: a message string, a rejected promise (an exception
      the function does not catch), or the result object. */
  datatype Outcome =
    | Message(text: string)
    | Rejected
    | Described(summary: string, metadata: Metadata, plagiarismResults: seq<Finding>)

  /** The clone directory: `path.join(osTmp, "mouli-cursor-" + Date.now())`. */
  function TempDir(env: Environment): string
  {
    JoinPath(env.tempRoot, "mouli-cursor-" + env.stamp)
  }

  /** A README is usable when it is a non-empty string. */
  predicate Usable(readme: Option<string>)
  {
    readme.Some? && readme.value != ""
  }

  /** One plagiarism question per file of `files`, in order. */
  function Asks(files: seq<string>): (r: seq<Effect>)
    ensures |r| == |files| && forall k :: 0 <= k < |r| ==> r[k] == Ask(files[k])
  {
    if files == [] then [] else [Ask(files[0])] + Asks(files[1..])
  }

  /** The plagiarism questions a run asks once the clone holds `tree`. */
  function ClonedAsks(tree: seq<Node>, env: Environment): seq<Effect>
  {
    Asks(AskedOf(Walk(TempDir(env), tree)))
  }

  /** Every call a run can make, for the URL's owner and repository, in
      order: the plagiarism questions sit between the clone and the summary
      request, and there are none when the clone fails. */
  function FullTrace(owner: string, repo: string, url: string, env: Environment): (r: seq<Effect>)
    ensures |r| >= 5
  {
    var asks := match env.clone(StripGitSuffix(url), TempDir(env))
                case None => []
                case Some(tree) => ClonedAsks(tree, env);
    [FetchReadme(owner, repo), FetchMetadata(owner, repo), Clone(StripGitSuffix(url), TempDir(env))]
    + asks + [Summarize, RemoveDir(TempDir(env))]
  }

  /** What a run returns and the calls it makes. */
  function Describe(url: string, env: Environment): (Outcome, seq<Effect>)
  {
    match ParseRepoUrl(url)
    case None => (Message(InvalidUrlMessage), [])
    case Some((owner, repo)) => Fetch(owner, repo, url, env)
  }

  /** The run once the URL has given `owner` and `repo`. */
  function Fetch(owner: string, repo: string, url: string, env: Environment): (Outcome, seq<Effect>)
  {
    var full := FullTrace(owner, repo, url, env);
    var readme := env.fetchReadme(owner, repo);
    if !Usable(readme) then (Message(NoReadmeMessage), full[..1])
    else match env.metadata(owner, repo)
      case None => (Rejected, full[..2])
      case Some(meta) =>
        match env.clone(StripGitSuffix(url), TempDir(env))
        case None => (Message(CloneFailedMessage), full[..3])
        case Some(tree) =>
          var (outcome, after) := Conclude(readme.value, meta, tree, env);
          (outcome, full[..3] + after)
  }

  /** The run once the clone holds `tree`: the summary request, then the
      clean-up and the result, with the calls made after the clone. */
  function Conclude(readme: string, meta: Metadata, tree: seq<Node>, env: Environment): (Outcome, seq<Effect>)
  {
    var asks := ClonedAsks(tree, env);
    match env.summarize(Request(readme, TempDir(env), tree, env))
    case None => (Rejected, asks + [Summarize])
    case Some(summary) =>
      (Described(summary, meta, SummariesOf(Walk(TempDir(env), tree), env.ask).plagiarismResults),
       asks + [Summarize, RemoveDir(TempDir(env))])
  }

  /** The summary request for a clone whose top-level entries are `tree`:
      the analysis and the three excerpts of that clone. */
  function Request(readme: string, tempDir: string, tree: seq<Node>, env: Environment): SummaryRequest
  {
    var visits := Walk(tempDir, tree);
    var code := SummariesOf(visits, env.ask);
    SummaryRequest(readme, AnalyzeVisits(visits, env.parseDeps), code.contractsSummary, code.archSummary, code.apiSummary)
  }

  /** `describeGithubProject(repoUrl)`. */
  method DescribeGithubProject(repoUrl: string, env: Environment) returns (outcome: Outcome, trace: seq<Effect>)
    ensures (outcome, trace) == Describe(repoUrl, env)
  {
    var parsed := ParseRepoUrl(repoUrl);
    if parsed.None? {
      return Message(InvalidUrlMessage), [];
    }
    var (owner, repo) := parsed.value;
    outcome, trace := FetchAll(owner, repo, repoUrl, env);
  }

  /** Lines 185-204 of `describeGithubProject`: the README, the metadata and
      the clone, each ending the run when it fails; then the rest. */
  method FetchAll(owner: string, repo: string, repoUrl: string, env: Environment)
    returns (outcome: Outcome, trace: seq<Effect>)
    ensures (outcome, trace) == Fetch(owner, repo, repoUrl, env)
  {
    ghost var full := FullTrace(owner, repo, repoUrl, env);
    trace := [FetchReadme(owner, repo)];
    var readme := env.fetchReadme(owner, repo);
    assert trace == full[..1];
    if readme.None? || readme.value == "" {
      return Message(NoReadmeMessage), trace;
    }
    trace := trace + [FetchMetadata(owner, repo)];
    var meta := env.metadata(owner, repo);
    assert trace == full[..2];
    if meta.None? {
      return Rejected, trace;
    }
    var tempDir := TempDir(env);
    var cloneUrl := StripGitSuffix(repoUrl);
    trace := trace + [Clone(cloneUrl, tempDir)];
    var cloned := env.clone(cloneUrl, tempDir);
    assert trace == full[..3];
    if cloned.None? {
      return Message(CloneFailedMessage), trace;
    }
    var after;
    outcome, after := Conclusion(readme.value, meta.value, cloned.value, env);
    trace := trace + after;
  }

  /** Lines 206-235 of `describeGithubProject`: analyse the clone, extract
      the excerpts, ask for the summary, remove the clone, compose the
      result. */
  method Conclusion(readme: string, meta: Metadata, tree: seq<Node>, env: Environment)
    returns (outcome: Outcome, after: seq<Effect>)
    ensures (outcome, after) == Conclude(readme, meta, tree, env)
  {
    var tempDir := TempDir(env);
    var analysis := AnalyzeRepo(tempDir, tree, env.parseDeps);
    var code, asked := ExtractCodeSummaries(tempDir, tree, env.ask);
    var asks := Asks(asked);
    after := asks + [Summarize];
    var request := SummaryRequest(readme, analysis, code.contractsSummary, code.archSummary, code.apiSummary);
    assert request == Request(readme, tempDir, tree, env);
    var response := env.summarize(request);
    if response.None? {
      return Rejected, after;
    }
    after := asks + [Summarize, RemoveDir(tempDir)];
    outcome := Described(response.value, meta, code.plagiarismResults);
  }

  /** A URL in which `github` does not occur is refused before anything is
      fetched. */
  lemma OtherHostRefused(url: string, env: Environment)
    requires !Contains(url, "github")
    ensures Describe(url, env) == (Message(InvalidUrlMessage), [])
  {
    NoGithubNoMatch(url, 0);
  }

  /** A missing or empty README ends the run after the README request: no
      metadata request, no clone. */
  lemma MissingReadmeSecond(url: string, env: Environment)
    requires ParseRepoUrl(url).Some?
    requires !Usable(env.fetchReadme(ParseRepoUrl(url).value.0, ParseRepoUrl(url).value.1))
    ensures Describe(url, env).0 == Message(NoReadmeMessage)
    ensures Describe(url, env).1 == [FetchReadme(ParseRepoUrl(url).value.0, ParseRepoUrl(url).value.1)]
  {
  }

  /** A failed clone ends the run before any analysis, and the clone
      directory is left as it is. */
  lemma CloneFailureThird(url: string, env: Environment)
    requires ParseRepoUrl(url).Some?
    requires var (owner, repo) := ParseRepoUrl(url).value;
             Usable(env.fetchReadme(owner, repo)) && env.metadata(owner, repo).Some?
    requires env.clone(StripGitSuffix(url), TempDir(env)).None?
    ensures Describe(url, env).0 == Message(CloneFailedMessage)
    ensures var (owner, repo) := ParseRepoUrl(url).value;
            Describe(url, env).1 == [FetchReadme(owner, repo), FetchMetadata(owner, repo), Clone(StripGitSuffix(url), TempDir(env))]
  {
  }

  /** Every run makes a prefix of the full sequence of calls: the README
      before the metadata, the metadata before the clone, the clone before
      the plagiarism questions, those before the summary, the summary
      before the clean-up. */
  lemma CallsInOrder(url: string, env: Environment)
    ensures ParseRepoUrl(url).None? ==> Describe(url, env).1 == []
    ensures ParseRepoUrl(url).Some? ==>
              var (owner, repo) := ParseRepoUrl(url).value;
              var full := FullTrace(owner, repo, url, env);
              var trace := Describe(url, env).1;
              |trace| <= |full| && trace == full[..|trace|]
  {
    match ParseRepoUrl(url)
    case None =>
    case Some((owner, repo)) =>
      assert Describe(url, env) == Fetch(owner, repo, url, env);
      FetchInOrder(owner, repo, url, env);
  }

  /** The calls of a run once the URL has parsed: the first one, two or
      three calls, everything but the clean-up, or everything, the last
      exactly when the run returns a result. */
  lemma FetchInOrder(owner: string, repo: string, url: string, env: Environment)
    ensures var full := FullTrace(owner, repo, url, env);
            var (outcome, trace) := Fetch(owner, repo, url, env);
            && |trace| in {1, 2, 3, |full| - 1, |full|}
            && trace == full[..|trace|]
            && (|trace| == |full| <==> outcome.Described?)
  {
    var full := FullTrace(owner, repo, url, env);
    if Usable(env.fetchReadme(owner, repo)) && env.metadata(owner, repo).Some? {
      match env.clone(StripGitSuffix(url), TempDir(env))
      case None =>
      case Some(tree) =>
        ClonedRunTrace(owner, repo, url, env, tree);
        assert full[..|full|] == full;
    }
  }

  /** After a successful clone, a run makes every call but the clean-up, or
      every call when it returns a result. */
  lemma ClonedRunTrace(owner: string, repo: string, url: string, env: Environment, tree: seq<Node>)
    requires Usable(env.fetchReadme(owner, repo)) && env.metadata(owner, repo).Some?
    requires env.clone(StripGitSuffix(url), TempDir(env)) == Some(tree)
    ensures var full := FullTrace(owner, repo, url, env);
            var (outcome, trace) := Fetch(owner, repo, url, env);
            trace == if outcome.Described? then full else full[..|full| - 1]
  {
    var readme, meta := env.fetchReadme(owner, repo).value, env.metadata(owner, repo).value;
    var head := [FetchReadme(owner, repo), FetchMetadata(owner, repo), Clone(StripGitSuffix(url), TempDir(env))];
    var asks := ClonedAsks(tree, env);
    FullTraceCloned(owner, repo, url, env, tree);
    FetchCloned(owner, repo, url, env, tree);
    ConcludeTrace(readme, meta, tree, env);
    var rest := Conclude(readme, meta, tree, env);
    TraceEnds(head, asks, rest.1, rest.0.Described?, TempDir(env));
  }

  /** The calls after the clone, put after the first three, are all the
      calls or all but the last. */
  lemma TraceEnds(head: seq<Effect>, asks: seq<Effect>, after: seq<Effect>, described: bool, dir: string)
    requires after == asks + [Summarize] + (if described then [RemoveDir(dir)] else [])
    ensures var full := head + asks + [Summarize, RemoveDir(dir)];
            head + after == if described then full else full[..|full| - 1]
  {
    var full := head + asks + [Summarize, RemoveDir(dir)];
    if !described {
      assert full[..|full| - 1] == head + asks + [Summarize];
    }
  }

  /** After a successful clone, every call is made, the plagiarism
      questions between the clone and the summary request. */
  lemma FullTraceCloned(owner: string, repo: string, url: string, env: Environment, tree: seq<Node>)
    requires env.clone(StripGitSuffix(url), TempDir(env)) == Some(tree)
    ensures FullTrace(owner, repo, url, env)
            == [FetchReadme(owner, repo), FetchMetadata(owner, repo), Clone(StripGitSuffix(url), TempDir(env))]
               + ClonedAsks(tree, env) + [Summarize, RemoveDir(TempDir(env))]
  {
  }

  /** A run that gets a README, the metadata and a clone ends as the rest
      of the run does, after its first three calls. */
  lemma FetchCloned(owner: string, repo: string, url: string, env: Environment, tree: seq<Node>)
    requires Usable(env.fetchReadme(owner, repo)) && env.metadata(owner, repo).Some?
    requires env.clone(StripGitSuffix(url), TempDir(env)) == Some(tree)
    ensures var rest := Conclude(env.fetchReadme(owner, repo).value, env.metadata(owner, repo).value, tree, env);
            Fetch(owner, repo, url, env)
            == (rest.0, [FetchReadme(owner, repo), FetchMetadata(owner, repo), Clone(StripGitSuffix(url), TempDir(env))] + rest.1)
  {
    var full := FullTrace(owner, repo, url, env);
    FullTraceCloned(owner, repo, url, env, tree);
    assert full[..3] == [FetchReadme(owner, repo), FetchMetadata(owner, repo), Clone(StripGitSuffix(url), TempDir(env))];
  }

  /** The calls made after the clone: the plagiarism questions and the
      summary request, then the clean-up when the run returns a result. */
  lemma ConcludeTrace(readme: string, meta: Metadata, tree: seq<Node>, env: Environment)
    ensures var (outcome, after) := Conclude(readme, meta, tree, env);
            after == ClonedAsks(tree, env) + [Summarize] + (if outcome.Described? then [RemoveDir(TempDir(env))] else [])
  {
  }

  /** A run asks about a file only after a successful clone, and only about
      a readable code file among the first ten of the clone's walk. */
  lemma AsksFollowClone(url: string, env: Environment, file: string)
    requires Ask(file) in Describe(url, env).1
    ensures ParseRepoUrl(url).Some? && env.clone(StripGitSuffix(url), TempDir(env)).Some?
    ensures var visits := Walk(TempDir(env), env.clone(StripGitSuffix(url), TempDir(env)).value);
            && file in Take(Selected(visits, AllCode), FileLimit)
            && exists v :: v in visits && v.FileVisit? && v.path == file && v.contents.Some?
  {
    CallsInOrder(url, env);
    if ParseRepoUrl(url).None? {
      assert false;
    }
    var (owner, repo) := ParseRepoUrl(url).value;
    var full := FullTrace(owner, repo, url, env);
    var trace := Describe(url, env).1;
    var k :| 0 <= k < |trace| && trace[k] == Ask(file);
    assert full[k] == Ask(file);
    AskInFull(owner, repo, url, env, file);
    var tree := env.clone(StripGitSuffix(url), TempDir(env)).value;
    AskInAsks(AskedOf(Walk(TempDir(env), tree)), file);
    AskedAreReadableCodeFiles(Walk(TempDir(env), tree), file);
  }

  /** The plagiarism questions of the full sequence of calls are those of
      the clone. */
  lemma AskInFull(owner: string, repo: string, url: string, env: Environment, file: string)
    requires Ask(file) in FullTrace(owner, repo, url, env)
    ensures env.clone(StripGitSuffix(url), TempDir(env)).Some?
    ensures Ask(file) in ClonedAsks(env.clone(StripGitSuffix(url), TempDir(env)).value, env)
  {
  }

  /** A question is about one of the files asked about. */
  lemma AskInAsks(files: seq<string>, file: string)
    requires Ask(file) in Asks(files)
    ensures file in files
  {
    var k :| 0 <= k < |files| && Asks(files)[k] == Ask(file);
  }

  /** The clone directory is removed exactly when the run succeeds: a failed
      clone, rejected metadata or a rejected summary leave it behind. */
  lemma CleanupOnlyOnSuccess(url: string, env: Environment)
    ensures RemoveDir(TempDir(env)) in Describe(url, env).1 <==> Describe(url, env).0.Described?
  {
    match ParseRepoUrl(url)
    case None =>
    case Some((owner, repo)) =>
      assert Describe(url, env) == Fetch(owner, repo, url, env);
      FetchInOrder(owner, repo, url, env);
      var full := FullTrace(owner, repo, url, env);
      assert RemoveDir(TempDir(env)) !in full[..|full| - 1];
  }
}
