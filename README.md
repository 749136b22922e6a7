# Mouli's cursor — a verified model of the repository analyzer

Mouli's cursor describes a GitHub project from its URL. `describeGithubProject`
reads the owner and the repository off the URL and fetches the README and the
repository metadata. It then makes a shallow clone into a temporary directory
and makes a static survey of the clone (`analyzeRepo`). Next it extracts
excerpts of the contract, API, backend and frontend code and runs a plagiarism
check on the first ten code files (`extractCodeSummaries`). It asks a
text-generation service for a summary, removes the clone and returns the
result. On the repository page, `parseSections` cuts the returned summary into
sections keyed by a slug of each heading.

This project models that core in Dafny and proves what it promises.

- The URL regular expression is modelled exactly: leftmost match, lazy groups,
  `.` as "any character but a line terminator", `$` as the end of the text.
  The groups returned are proved to be those of the leftmost match with the
  shortest owner, and a URL has no match only when the pattern fits nowhere.
- The early exits of `describeGithubProject` come in the order the code checks
  them. The calls to the outside world are recorded as a trace of effects:
  the README and metadata requests, the clone, one plagiarism question per
  readable file among the first ten code files, the summary request and the
  removal of the clone.
- The directory walk, the file classification, the excerpts, the language
  table, the framework detection and the plagiarism loop are each a loop or
  recursion, proved against a specification function.
- `parseSections` is a loop over the lines, proved against a line-by-line scan
  function.

The outside world appears only as parameters: the README fetch, the GitHub
API, `git clone`, the text-generation service, `JSON.parse` of a
`package.json`, the temporary root and `Date.now()`. A cloned repository is a
tree of `Node`s. Its walk is the sequence of callback calls `walkDir` makes.
Reading a file of the clone looks the file up in that walk.

Files:

| file | contents |
|---|---|
| `wrappers.dfy` | `Option` |
| `text.dfy` | JavaScript string operations: `\s`, ASCII lower-casing, `/p/i` tests, `split(/\r?\n/)`, `join("\n")`, `trim`, subsequences |
| `filetree.dfy` | the clone as a tree, `walkDir`, `path.extname`, file reads |
| `language.dfy` | `getLanguageFromExt`, `countLines` |
| `analyzer.dfy` | `analyzeRepo` and its line, folder and framework accounting |
| `classifier.dfy` | `collectFiles` (a class over the five arrays it pushes onto) and facts about the lists |
| `excerpts.dfy` | `readFiles` and the architecture excerpt |
| `plagiarism.dfy` | the plagiarism loop |
| `summaries.dfy` | `extractCodeSummaries` |
| `url.dfy` | the URL regular expression and the `.git` suffix removal |
| `pipeline.dfy` | `describeGithubProject` |
| `sections.dfy` | `parseSections` and the shape of its keys and values |
| `section_runs.dfy` | worked runs of `parseSections` on short line sequences |

## Model

| member | source | states |
|---|---|---|
| Text.SplitLines | moulis-cursor.js:44 | `split(/\r?\n/)` yields one piece more than the text has `\n` characters, and no piece holds a `\n`; `Text.SplitCrLf` states that a `\r` before a `\n` goes with the break |
| Text.SplitJoinLines | GitHubRepoAnalyzer.jsx:70 | splitting the `\n`-join of lines that hold no line break or `\r` gives the lines back |
| Text.JoinSplitLines | GitHubRepoAnalyzer.jsx:70 | joining the pieces of a text without `\r` with `\n` gives the text back |
| Text.SplitCrLf | GitHubRepoAnalyzer.jsx:70 | a `\r\n` break is cut off whole: the line before it comes back without the `\r`, whatever else it holds |
| Text.Trim | GitHubRepoAnalyzer.jsx:74 | a trimmed text is a slice of the text with only white space before and after it, and it is empty or starts and ends with a character that is not white space |
| Text.TrimStart | GitHubRepoAnalyzer.jsx:74 | the leading part removed is all white space and what is left does not start with white space |
| Text.TrimEnd | GitHubRepoAnalyzer.jsx:74 | the trailing part removed is all white space and what is left does not end with white space |
| Text.JoinLinesAppend | moulis-cursor.js:150 | joining two non-empty runs of lines puts one `\n` between their joins |
| FileTree.WalkAppend | moulis-cursor.js:29-39 | walking a listing in two parts is walking the first part, then the second |
| FileTree.DirectoryBeforeContents | moulis-cursor.js:32-34 | the callback sees a directory, then everything inside it, then the entries after it (pre-order) |
| FileTree.WalkUnder | moulis-cursor.js:31 | every path the walk reports lies under the directory walked |
| FileTree.ReadFile | moulis-cursor.js:43 | a read succeeds only for a file the walk reports, and gives the contents of the first file the walk reports under that path |
| FileTree.ExtName | moulis-cursor.js:70 | `path.extname` is the name from its last `.` on, and empty exactly when the name is `..` or has no `.` after its first character |
| Language.LanguageIgnoresCase | moulis-cursor.js:56 | extensions that differ only in ASCII case get the same label |
| Language.UpperCaseAccepted | moulis-cursor.js:56 | `.SOL` is Solidity |
| Language.YamlSpellingsAgree | moulis-cursor.js:54 | `.yml` and `.YAML` are both YAML |
| Language.UnknownExtensionKept | moulis-cursor.js:50-56 | every extension whose lower-cased form is none of the nineteen table keys is its own label, case kept |
| Language.KnownExtensionLabelled | moulis-cursor.js:50-56 | an extension whose lower-cased form is a table key gets one of the eighteen labels |
| Language.UnknownExtensionExamples | moulis-cursor.js:56 | `.Txt` stays `.Txt`, and no extension labels as `""` |
| Language.LanguageEmptyOnlyForNoExtension | moulis-cursor.js:50-57 | the label is empty exactly when the extension is |
| Language.CountLines | moulis-cursor.js:41-48 | a readable file counts one more line than it has `\n` characters; an unreadable one counts 0 |
| Language.CountLinesEdges | moulis-cursor.js:44-46 | an empty file counts 1, an unreadable one 0, and `a\r\nb\n` counts 3 |
| Analyzer.AddUnique | moulis-cursor.js:68 | `Set.add` keeps the old members, adds the new one and keeps the list free of repeats |
| Analyzer.AddToBucket | moulis-cursor.js:72-73 | the language bucket grows by the file's lines, a missing bucket counting 0, and no other bucket changes |
| Analyzer.AddFileLines | moulis-cursor.js:72-73 | the two statements on `langStats` add the file's lines to its bucket |
| Analyzer.AddMatchesExact | moulis-cursor.js:94-95 | a table of case-insensitive tests adds exactly the frameworks whose test the text passes, each once |
| Analyzer.AddDependenciesExact | moulis-cursor.js:81-87 | the dependency loop adds exactly the frameworks some dependency name reveals, each once |
| Analyzer.PackageTestsUnrolled | moulis-cursor.js:82-86 | the five `if` statements apply the package table in its order |
| Analyzer.RequirementsTestsUnrolled | moulis-cursor.js:94-95 | the two `if` statements apply the requirements table in its order |
| Analyzer.PackageTests | moulis-cursor.js:81-87 | the `forEach` callback applies the five package tests to one dependency name |
| Analyzer.AddDependenciesIn | moulis-cursor.js:81-87 | the loop over `Object.keys(deps)` applies the package tests to every name, in order |
| Analyzer.DetectFrameworksIn | moulis-cursor.js:76-97 | only a readable `package.json` that parses, or a readable `requirements.txt`, adds frameworks |
| Analyzer.AnalyzeRepo | moulis-cursor.js:59-105 | the walk's callback builds the line table, the key folders and the frameworks that the specification functions give for the walk |
| Analyzer.LangStatsStep | moulis-cursor.js:69-73 | a directory leaves `langStats` as it is, and a file adds its lines to its language's bucket |
| Analyzer.KeyFoldersStep | moulis-cursor.js:66-68 | a directory with a recognised lower-cased name adds it to the key folders |
| Analyzer.FrameworksStep | moulis-cursor.js:69-97 | only a file can add frameworks |
| Analyzer.LanguageTotalsSum | moulis-cursor.js:69-73 | the values of `langStats` sum to the lines of all files of the clone, unreadable files counting 0 |
| Analyzer.LanguageBuckets | moulis-cursor.js:69-73 | a language is a key exactly when some file has it, and its value is the lines of the files of that language |
| Analyzer.LabelTotalsSum | moulis-cursor.js:72-73 | with any labelling, each file's lines land in exactly one bucket, so the buckets sum to the total |
| Analyzer.LabelBuckets | moulis-cursor.js:72-73 | with any labelling, the buckets are the labels of the files, each holding its files' lines |
| Analyzer.SumValuesAdd | moulis-cursor.js:73 | adding lines to one bucket adds them to the sum of all buckets |
| Analyzer.KeyFoldersExact | moulis-cursor.js:62-68 | the key folders are recognised names without repeats; a name is there exactly when some directory, never a file, has it as its lower-cased base name |
| Analyzer.DetectFrameworksExact | moulis-cursor.js:76-97 | one file adds exactly what it reveals, and an unreadable or unparseable manifest reveals nothing |
| Analyzer.FrameworksExact | moulis-cursor.js:63-97 | a framework is listed exactly when some file reveals it, and is listed once |
| Analyzer.FrameworksKnown | moulis-cursor.js:82-95 | every detected framework is one of the seven names of the two tables |
| Classifier.SelectedAppend | moulis-cursor.js:119 | what two parts of a walk select is what each part selects, in order |
| Classifier.SelectedStep | moulis-cursor.js:119-136 | one more entry of a listing adds what that entry contributes to each list |
| Classifier.SelectedDir | moulis-cursor.js:121-122 | a directory contributes the files under it, never its own path |
| Classifier.SelectedFile | moulis-cursor.js:123-134 | a file contributes its path to the lists whose test it passes |
| Classifier.CodeFiles.constructor | moulis-cursor.js:112-116 | the five arrays start empty |
| Classifier.CodeFiles.PushFile | moulis-cursor.js:124-134 | a file's path is pushed onto every array whose test it passes, and onto no other |
| Classifier.CodeFiles.CollectFiles | moulis-cursor.js:118-137 | every array grows by the paths of its category, in walk order |
| ClassifierFacts.SelectedExact | moulis-cursor.js:124-134 | a path is on a list exactly when some file of the walk has that path and passes the list's test |
| ClassifierFacts.SelectedFrom | moulis-cursor.js:124-134 | every path on a list comes from a file of the walk that passes the list's test |
| ClassifierFacts.InSelected | moulis-cursor.js:124-134 | every file of the walk that passes a list's test is on that list |
| ClassifierFacts.HintImpliesCode | moulis-cursor.js:125-129 | a contract, API, backend or frontend file is also a code file |
| ClassifierFacts.ListsWithinCode | moulis-cursor.js:125-134 | each hint list is a subsequence of the code list: same paths, same relative order |
| ClassifierFacts.SelectedNoDuplicates | moulis-cursor.js:118-137 | a list holds each path once when the walk reports each path once |
| ClassifierFacts.ServerScriptIsApiAndBackend | moulis-cursor.js:131-132 | the hint lists overlap: a script whose path mentions `server` is an API file and a backend file |
| ClassifierFacts.AppInTempDirMakesEveryScriptAnApiFile | moulis-cursor.js:131 | the API test reads the whole path, so a temporary directory mentioning `app` makes every script an API file |
| ClassifierFacts.PrefixMentionsApp | moulis-cursor.js:131 | a path under a directory that mentions `app` passes the API test's word list |
| Excerpts.Take | moulis-cursor.js:146 | `slice(0, n)` keeps at most `n` elements, a prefix, and all of a shorter list |
| Excerpts.TakeAppend | moulis-cursor.js:146 | taking from a concatenation takes from the first part, then only what room is left from the second |
| Excerpts.ExcerptStep | moulis-cursor.js:143-147 | one more file adds as many of its lines as there is room for |
| Excerpts.FullExcerpt | moulis-cursor.js:147 | once the excerpt is full, the files after it change nothing, so the `break` is safe |
| Excerpts.ReadFiles | moulis-cursor.js:141-151 | the excerpt is the `\n`-join of the first `maxLines` lines of the readable files, in list order |
| Excerpts.ReadInto | moulis-cursor.js:144-148 | one turn of the loop adds the lines that fit, nothing for an unreadable file, and reports a full excerpt |
| Excerpts.ExcerptIsBoundedPrefix | moulis-cursor.js:141-151 | an excerpt has at most `maxLines` lines, a prefix of all lines, and exactly `maxLines` when there are enough |
| Excerpts.UnreadableSkipped | moulis-cursor.js:148 | an unreadable file contributes nothing, wherever it stands |
| Excerpts.AllLinesAppend | moulis-cursor.js:143 | the lines of two lists of files are the lines of the first, then of the second |
| Excerpts.JoinLinesBreaks | moulis-cursor.js:150 | joining `k` lines without line breaks gives `k - 1` line breaks |
| Excerpts.ExcerptLineCount | moulis-cursor.js:150 | read back with `split(/\r?\n/)`, an excerpt has as many lines as were kept, and 1 when none was |
| Excerpts.ArchSummaryLines | moulis-cursor.js:154-157 | read back line by line, the architecture excerpt is the backend lines, a `---` line, then the frontend lines, an empty excerpt reading as one empty line |
| Excerpts.ArchSummaryJoin | moulis-cursor.js:154-157 | joining the two excerpts with `\n---\n` is joining their lines with a `---` line between |
| Plagiarism.Requested | moulis-cursor.js:161-169 | the files put to the service are exactly the readable ones among those checked, in order, never more than were checked |
| Plagiarism.CheckPlagiarism | moulis-cursor.js:160-174 | the loop gives the entries of the first ten code files, in order, and asks about the readable ones, in order |
| Plagiarism.ReportedWereRequested | moulis-cursor.js:162-172 | every reported file was put to the service |
| Plagiarism.FindingsFollowFiles | moulis-cursor.js:161-173 | the entry files are a subsequence of the files checked, so there are never more entries than files |
| Plagiarism.FindingsSnoc | moulis-cursor.js:161 | checking one more file appends what that file reports |
| Plagiarism.ReportedShape | moulis-cursor.js:162-173 | a file is reported at most once, under its own path |
| Plagiarism.FindingsStep | moulis-cursor.js:172 | one more file keeps the entry files a subsequence of the files |
| Plagiarism.PlagiarismResultsBounded | moulis-cursor.js:161 | at most ten entries, drawn in order from the first ten code files, and no file twice when the code list has no repeats |
| Plagiarism.FindingExact | moulis-cursor.js:162-173 | a file is reported exactly when it can be read and the service answers, and the entry carries that answer |
| Plagiarism.PromptIgnoresTail | moulis-cursor.js:167 | the question quotes only the first 1200 characters of a file |
| Summaries.ExtractCodeSummaries | moulis-cursor.js:107-177 | the lists, the excerpts of 1000, 1000, 500 and 500 lines, the plagiarism entries and the files asked about are those of the clone's walk |
| Summaries.CollectLists | moulis-cursor.js:112-138 | the five arrays hold the selected paths of the walk |
| Summaries.PlagiarismReportsCodeFiles | moulis-cursor.js:160-174 | every reported file is one of the first ten code files and carries the answer about its own contents |
| Summaries.AskedAreReadableCodeFiles | moulis-cursor.js:160-169 | at most ten files are asked about, each a readable code file among the first ten of the walk |
| RepoUrl.RepoEnd | moulis-cursor.js:181 | the second group ends after its start and within the URL |
| RepoUrl.RepoEndFromShape | moulis-cursor.js:181 | the lazy second group stops at the first `.` or `/`, or at the end, and holds no line terminator |
| RepoUrl.OwnerFromShape | moulis-cursor.js:181 | the lazy first group ends at the first `/` that a second group follows, and holds no line terminator |
| RepoUrl.MatchAt | moulis-cursor.js:181 | a match starts where `github`, one character and `com/` occur |
| RepoUrl.MatchFrom | moulis-cursor.js:181 | the search finds a match at or after its start, with the owner and repository in order |
| RepoUrl.MatchFromAt | moulis-cursor.js:181 | the match found is leftmost: no earlier position matches |
| RepoUrl.ParsedShape | moulis-cursor.js:181-184 | `match[1]` and `match[2]` are the groups of the leftmost position where the pattern fits, with the shortest owner there; both are non-empty, hold no line terminator, and the repository is followed by `.`, `/` or the end |
| RepoUrl.NoEarlierFit | moulis-cursor.js:181 | where the search finds no match, the pattern fits with no groups |
| RepoUrl.NoShorterOwner | moulis-cursor.js:181 | the owner of a match is the shortest that fits at its position |
| RepoUrl.MatchesParsed | moulis-cursor.js:181-182 | whenever the pattern fits somewhere in the URL, there is a match |
| RepoUrl.ParseRepoUrlNone | moulis-cursor.js:181-182 | "Invalid GitHub URL." is returned exactly when the pattern fits nowhere |
| RepoUrl.ParseRepoUrlExactly | moulis-cursor.js:181-184 | the owner and repository returned are exactly those of the leftmost match with the shortest owner |
| RepoUrl.FirstMatchUnique | moulis-cursor.js:181 | the leftmost match with the shortest owner has one pair of groups |
| RepoUrl.MatchesAtMatch | moulis-cursor.js:181 | where the pattern fits, the search succeeds with a `/` no later than the fitting owner's |
| RepoUrl.RepoEndFromReaches | moulis-cursor.js:181 | the lazy second group reaches the first `.`, `/` or end of text when nothing stops it earlier |
| RepoUrl.OwnerFromReaches | moulis-cursor.js:181 | the lazy first group stops no later than a `/` that a second group follows |
| RepoUrl.MatchFromFinds | moulis-cursor.js:181 | the leftmost search finds a match when one starts at or after its start |
| RepoUrl.MatchGroups | moulis-cursor.js:181 | the groups of a match sit where the pattern places them and are clean |
| RepoUrl.MatchParts | moulis-cursor.js:181 | a match is the host, the owner, a `/` and the repository, with the terminator after it |
| RepoUrl.NoGithubNoMatch | moulis-cursor.js:181-182 | a URL in which `github` does not occur has no match |
| RepoUrl.ParseTreeUrl | moulis-cursor.js:181-184 | `https://github.com/acme/widgets/tree/main` gives `acme` and `widgets` |
| RepoUrl.ParseGitUrl | moulis-cursor.js:181-184 | `https://github.com/acme/widgets.git` gives `acme` and `widgets`, without `.git` |
| RepoUrl.StripGitSuffix | moulis-cursor.js:202 | one trailing `.git` is removed, and nothing else changes |
| Pipeline.DescribeGithubProject | moulis-cursor.js:179-236 | the run returns the outcome and makes the calls the specification function gives |
| Pipeline.FetchAll | moulis-cursor.js:185-204 | the README, the metadata and the clone, each ending the run when it fails |
| Pipeline.Asks | moulis-cursor.js:161-169 | one plagiarism question per file, in the files' order |
| Pipeline.Conclusion | moulis-cursor.js:206-235 | the analysis, the excerpts, the plagiarism questions, the summary request, the clean-up and the result |
| Pipeline.OtherHostRefused | moulis-cursor.js:181-182 | a URL without `github` gives "Invalid GitHub URL." before any call |
| Pipeline.MissingReadmeSecond | moulis-cursor.js:185-186 | a missing or empty README ends the run after the README request alone |
| Pipeline.CloneFailureThird | moulis-cursor.js:202-204 | a failed clone ends the run after three calls, before any analysis |
| Pipeline.CallsInOrder | moulis-cursor.js:179-236 | every run makes a prefix of README, metadata, clone, the plagiarism questions, summary, clean-up |
| Pipeline.FetchInOrder | moulis-cursor.js:185-235 | a run makes the first one, two or three calls, all but the clean-up, or all, and all exactly when it returns a result |
| Pipeline.ClonedRunTrace | moulis-cursor.js:202-222 | after a successful clone a run makes every call but the clean-up, or every call when it returns a result |
| Pipeline.FullTraceCloned | moulis-cursor.js:185-222 | after a successful clone the calls are README, metadata, clone, the plagiarism questions of the clone, summary, clean-up |
| Pipeline.FetchCloned | moulis-cursor.js:185-204 | a run that gets a README, the metadata and a clone makes those three calls and then ends as the rest of the run does |
| Pipeline.ConcludeTrace | moulis-cursor.js:206-222 | after the clone come the plagiarism questions and the summary request, then the clean-up exactly when a result is returned |
| Pipeline.AsksFollowClone | moulis-cursor.js:161-169 | a plagiarism question comes only after a successful clone and only about a readable code file among its first ten |
| Pipeline.AskInFull | moulis-cursor.js:202-210 | the questions among all calls are those of the clone, and there are none without a clone |
| Pipeline.AskInAsks | moulis-cursor.js:161-169 | a question is about one of the files asked about |
| Pipeline.CleanupOnlyOnSuccess | moulis-cursor.js:221-222 | the clone is removed exactly when the run returns a result |
| Sections.ParseSections | GitHubRepoAnalyzer.jsx:64-99 | the loop over the lines and the final flush give the sections of the line-by-line scan |
| Sections.LeadingDigits | GitHubRepoAnalyzer.jsx:84 | `\d+` takes every leading digit and stops at the first non-digit |
| Sections.DropHashes | GitHubRepoAnalyzer.jsx:83 | removing `^#+` removes only `#` characters and leaves a suffix of the line that does not start with `#` |
| Sections.SkipRun | GitHubRepoAnalyzer.jsx:83 | the run skipped holds only characters outside `[a-z0-9]`, and what is left starts with a slug character |
| Sections.Collapse | GitHubRepoAnalyzer.jsx:83 | the replacement keeps a slug character first and turns any other first character into `-` |
| Sections.CollapseWordRun | GitHubRepoAnalyzer.jsx:83 | a word of `[a-z0-9]` characters is kept, and the maximal run of other characters after it becomes exactly one `-` in its place |
| Sections.CollapseKeepsWord | GitHubRepoAnalyzer.jsx:83 | a leading word of `[a-z0-9]` characters passes through the replacement unchanged |
| Sections.CollapseRun | GitHubRepoAnalyzer.jsx:83 | a leading maximal run of characters outside `[a-z0-9]`, of any length, becomes one `-` |
| Sections.SkipRunOver | GitHubRepoAnalyzer.jsx:83 | the `+` of the pattern takes the whole run of other characters and stops at the next slug character |
| Sections.HeadingTest | GitHubRepoAnalyzer.jsx:78 | `/^#+\s*(.+)/` holds exactly when the line starts with `#` and some later character is not a line terminator |
| Sections.NumberedTest | GitHubRepoAnalyzer.jsx:84 | `/^\d+\.\s+/` holds exactly when the leading digits are followed by `.` and white space |
| Sections.CollapseShape | GitHubRepoAnalyzer.jsx:83 | a key holds only `a-z`, `0-9` and `-`, never two `-` in a row |
| Sections.CollapseKeepsSlugChars | GitHubRepoAnalyzer.jsx:83 | the replacement loses and adds no character of `[a-z0-9]` |
| Sections.CollapseFixes | GitHubRepoAnalyzer.jsx:83 | text that is already a key is left unchanged |
| Sections.CollapseIdempotent | GitHubRepoAnalyzer.jsx:83 | collapsing twice is collapsing once |
| Sections.SlugShape | GitHubRepoAnalyzer.jsx:83 | the key of any title is slug text without a double `-` |
| Sections.StepSound | GitHubRepoAnalyzer.jsx:71-93 | each turn of the loop keeps the stored keys slugs and the stored values trimmed joins of non-marker lines |
| Sections.ScanFromSound | GitHubRepoAnalyzer.jsx:71-94 | the loop keeps that invariant over all lines |
| Sections.SettleSound | GitHubRepoAnalyzer.jsx:95-97 | the final flush keeps it too |
| Sections.SectionsShape | GitHubRepoAnalyzer.jsx:64-99 | every key holds only `a-z`, `0-9` and `-` without a double `-`, and every value is the trimmed join of at least one line of the text that is neither a rule nor a heading |
| Sections.ValuesTrimmed | GitHubRepoAnalyzer.jsx:74 | no stored value starts or ends with white space |
| Sections.KeyOfShape | GitHubRepoAnalyzer.jsx:74 | a `---` stores under `current` or under `"null"`, both slugs |
| Sections.StepRule | GitHubRepoAnalyzer.jsx:72-77 | a rule stores a non-empty buffer under `current` (or `"null"`) and clears `current` |
| Sections.StepHeading | GitHubRepoAnalyzer.jsx:78-83 | a heading flushes to a truthy `current` and sets the key from its title |
| Sections.StepNumbered | GitHubRepoAnalyzer.jsx:84-90 | a numbered line flushes, sets the key and starts the buffer with itself |
| Sections.StepText | GitHubRepoAnalyzer.jsx:91-92 | any other line joins the buffer |
| Sections.PlainTextIsSummary | GitHubRepoAnalyzer.jsx:68 | a text without marker lines is a single `summary`: the trimmed text itself when it has no `\r` |
| Sections.PlainLinesAreSummary | GitHubRepoAnalyzer.jsx:95-97 | lines without markers all go to the buffer, which the final flush stores under `summary` |
| Sections.PlainScanned | GitHubRepoAnalyzer.jsx:91-92 | lines without markers are appended to the buffer, in order |
| Sections.ScanFromSnoc | GitHubRepoAnalyzer.jsx:71-94 | reading one more line at the end is one more turn of the loop |
| Sections.SummaryBeforeFirstMarker | GitHubRepoAnalyzer.jsx:68-90 | lines before the first marker, when there are any, are stored under `summary`, trimmed, when that marker is read |
| Sections.MarkerStoresSummary | GitHubRepoAnalyzer.jsx:72-88 | a rule, heading or numbered line read with the summary's lines in the buffer stores them under `summary` |
| Sections.OrphanLinesCarryOver | GitHubRepoAnalyzer.jsx:77-92 | lines read while `current` is `null` stay in the buffer across a heading, which only sets the key, whatever the number of lines |
| Sections.SettleSome | GitHubRepoAnalyzer.jsx:95-97 | the final flush stores a non-empty buffer under a non-empty key |
| Sections.FalsyTextNoSections | GitHubRepoAnalyzer.jsx:65 | `null`, `undefined` or an empty text give no sections |
| Sections.SectionsOfJoinedLines | GitHubRepoAnalyzer.jsx:70 | the sections of a text written line by line are those of its lines |
| Sections.HeadingNotRule | GitHubRepoAnalyzer.jsx:72-78 | a heading is never a rule, so the heading branch sees every heading |
| Sections.NumberedNotRuleOrHeading | GitHubRepoAnalyzer.jsx:72-84 | a numbered line is neither a rule nor a heading, so the numbered branch sees every numbered line |
| SectionRuns.OrphanLinesJoinNextSection | GitHubRepoAnalyzer.jsx:77-83 | lines after a `---` are not flushed by the next heading and become the start of its section |
| SectionRuns.OrphanLinesStoredUnderNull | GitHubRepoAnalyzer.jsx:73-77 | lines after a `---` flushed by another `---` are stored under `"null"` |
| SectionRuns.LinesAfterLastRuleDropped | GitHubRepoAnalyzer.jsx:95-97 | lines after the last `---` with no heading after them are dropped |
| SectionRuns.RepeatedKeyOverwrites | GitHubRepoAnalyzer.jsx:79-83 | a second section with the same key replaces the first; a text opening with a heading has no `summary` |
| SectionRuns.NumberedLineOpensSection | GitHubRepoAnalyzer.jsx:84-90 | a numbered line opens its section and is kept as its first line |
| SectionRuns.EmptyKeyLosesLines | GitHubRepoAnalyzer.jsx:79-83 | a heading whose key is empty is falsy: nothing is stored under it, and lines under it that end the text are dropped |

## Left out

- The README fetch, the six GitHub API requests, `git clone`, the text-generation service and `fs.rmSync` are parameters of `Environment` or recorded effects. Their own behaviour, such as HTTP status handling, retries and the temporary directory really being removed, is outside the model.
- The six API bodies are kept opaque (`Metadata`). `r.json()` failing and `Promise.all` rejecting are one outcome, `Rejected`.
- `JSON.stringify` of the result object is not modelled. The run returns the `Described` value with the same fields.
- The text of the summary request is not modelled: the prompt wording, `JSON.stringify(analysis.langStats)`, the `join(', ') || 'None'` lists, the model name and the system instructions. `SummaryRequest` keeps the data that request is built from.
- `Date.now()`, `process.platform` and `TEMP` are the `stamp` and `tempRoot` fields of the environment. `path.join` is `dir + "/" + name` for a normalised directory; Windows separators and `..` segments are not modelled.
- `fs.readdirSync` throwing, symbolic links and files changing during the walk are not modelled. A clone is a finite tree listed in `readdirSync` order.
- `JSON.parse` of `package.json` and the spread `{ ...pkg.dependencies, ...pkg.devDependencies }` are the `parseDeps` parameter. It yields the dependency names in `Object.keys` order, or `None` when parsing throws.
- Text.Lower: `toLowerCase` is modelled as ASCII lower-casing. For the `/i` tests of ASCII words this is exact, since without the `u` flag JavaScript never folds a non-ASCII character to an ASCII one. `toLowerCase` itself also maps non-ASCII letters. That changes no table lookup of an extension or folder name. It does change a few section keys: a heading holding U+212A (Kelvin sign) or U+0130 gets `-` where JavaScript keeps a `k` or an `i`.
- Strings are sequences of UTF-16 code units, as in JavaScript. `substring(0, 1200)` and `split` count code units, and no decoding of file bytes is modelled: an unreadable file is `None`.
- The key order of the `sections` and `langStats` objects is not modelled; both are maps. `keyFolders` and `frameworks` keep insertion order.
- The `Analysis` keeps the line counts as unbounded naturals. JavaScript numbers lose precision past 2^53 lines, which no repository reaches.
- The formatting helpers of the repository page (`formatNumber`, `formatDate`), its React state and rendering, and the two API routes of the web application are not part of this model.
- The plagiarism check awaits each request in turn. The model treats the service as a function of the question, so a service whose answers depend on time or on earlier requests is not captured.

