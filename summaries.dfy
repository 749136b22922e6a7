/** `extractCodeSummaries(tempDir)`: the file lists, the three excerpts and
    the plagiarism check, over a clone whose top-level entries are `tree`. */
module Summaries {
  import opened Wrappers
  import opened Text
  import opened FileTree
  import opened Classifier
  import opened Excerpts
  import opened Plagiarism

  /** What `extractCodeSummaries` resolves to. */
  datatype CodeSummaries = CodeSummaries(
    contractsSummary: string,
    apiSummary: string,
    archSummary: string,
    plagiarismResults: seq<Finding>)

  /** `fs.readFileSync(path, 'utf8')` on the clone. */
  function Reader(visits: seq<Visit>): string -> Option<string>
  {
    path => ReadFile(visits, path)
  }

  /** The excerpt of list `cat`, capped at `maxLines` lines. */
  function ExcerptOf(visits: seq<Visit>, cat: Category, maxLines: nat): string
  {
    JoinLines(ExcerptLines(Selected(visits, cat), Reader(visits), maxLines))
  }

  /** What `extractCodeSummaries` computes for the walk `visits`; `ask`
      stands for the text-generation call of the plagiarism check. */
  function SummariesOf(visits: seq<Visit>, ask: string -> Option<string>): CodeSummaries
  {
    CodeSummaries(
      ExcerptOf(visits, Contract, 1000),
      ExcerptOf(visits, Api, 1000),
      ArchSummary(ExcerptOf(visits, Backend, 500), ExcerptOf(visits, Frontend, 500)),
      Findings(Take(Selected(visits, AllCode), FileLimit), Reader(visits), ask))
  }

  /** The files the plagiarism check of the walk `visits` asks about. */
  function AskedOf(visits: seq<Visit>): seq<string>
  {
    Requested(Take(Selected(visits, AllCode), FileLimit), Reader(visits))
  }

  /** `extractCodeSummaries(tempDir)`, with the files the plagiarism check
      asked about, in order. */
  method ExtractCodeSummaries(tempDir: string, tree: seq<Node>, ask: string -> Option<string>)
    returns (summaries: CodeSummaries, asked: seq<string>)
    ensures summaries == SummariesOf(Walk(tempDir, tree), ask)
    ensures asked == AskedOf(Walk(tempDir, tree))
  {
    var allCodeFiles, contractFiles, apiFiles, backendFiles, frontendFiles := CollectLists(tempDir, tree);
    var read := Reader(Walk(tempDir, tree));
    var contractsSummary := ReadFiles(contractFiles, read, 1000);
    var apiSummary := ReadFiles(apiFiles, read, 1000);
    var backendExcerpt := ReadFiles(backendFiles, read, 500);
    var frontendExcerpt := ReadFiles(frontendFiles, read, 500);
    var archSummary := ArchSummary(backendExcerpt, frontendExcerpt);
    var plagiarismResults;
    plagiarismResults, asked := CheckPlagiarism(allCodeFiles, read, ask);
    summaries := CodeSummaries(contractsSummary, apiSummary, archSummary, plagiarismResults);
  }

  /** The first half of `extractCodeSummaries`: five empty arrays, filled by
      `collectFiles(tempDir)`. */
  method CollectLists(tempDir: string, tree: seq<Node>)
    returns (allCodeFiles: seq<string>, contractFiles: seq<string>, apiFiles: seq<string>,
             backendFiles: seq<string>, frontendFiles: seq<string>)
    ensures allCodeFiles == Selected(Walk(tempDir, tree), AllCode)
    ensures contractFiles == Selected(Walk(tempDir, tree), Contract)
    ensures apiFiles == Selected(Walk(tempDir, tree), Api)
    ensures backendFiles == Selected(Walk(tempDir, tree), Backend)
    ensures frontendFiles == Selected(Walk(tempDir, tree), Frontend)
  {
    var files := new CodeFiles();
    files.CollectFiles(tempDir, tree);
    assert files.List(AllCode) == [] + Selected(Walk(tempDir, tree), AllCode);
    assert files.List(Contract) == [] + Selected(Walk(tempDir, tree), Contract);
    assert files.List(Api) == [] + Selected(Walk(tempDir, tree), Api);
    assert files.List(Backend) == [] + Selected(Walk(tempDir, tree), Backend);
    assert files.List(Frontend) == [] + Selected(Walk(tempDir, tree), Frontend);
    allCodeFiles, contractFiles, apiFiles, backendFiles, frontendFiles :=
      files.allCodeFiles, files.contractFiles, files.apiFiles, files.backendFiles, files.frontendFiles;
  }

  /** Every file the plagiarism check reports is a code file of the clone,
      among the first ten in walk order, and it is reported with what the
      service answered about its own contents. */
  lemma PlagiarismReportsCodeFiles(visits: seq<Visit>, ask: string -> Option<string>, f: Finding)
    requires f in SummariesOf(visits, ask).plagiarismResults
    ensures f.file in Take(Selected(visits, AllCode), FileLimit)
    ensures exists v :: v in visits && v.FileVisit? && v.path == f.file && v.contents.Some?
                        && ask(Prompt(f.file, v.contents.value)) == Some(f.result)
  {
    var files := Take(Selected(visits, AllCode), FileLimit);
    FindingExact(files, Reader(visits), ask, f);
    assert Reader(visits)(f.file) == ReadFile(visits, f.file);
  }

  /** The plagiarism check asks about at most ten files, each a readable
      code file among the first ten of the walk. */
  lemma AskedAreReadableCodeFiles(visits: seq<Visit>, file: string)
    requires file in AskedOf(visits)
    ensures |AskedOf(visits)| <= FileLimit
    ensures file in Take(Selected(visits, AllCode), FileLimit)
    ensures exists v :: v in visits && v.FileVisit? && v.path == file && v.contents.Some?
  {
    assert Reader(visits)(file) == ReadFile(visits, file);
  }
}
