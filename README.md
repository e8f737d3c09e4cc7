# cleaner — a Dafny model of its walkers, repository checks and configuration rules

`cleaner` is a command-line tool with four jobs:

- it finds build-artifact folders such as `target` or `node_modules` so they can be removed;
- it finds empty folders;
- it lists git repositories by their state;
- it manages the list of supported development platforms.

This project models the logic behind those jobs and proves what it promises.

- **Directory walkers.** `BuildsWalker`, the older `BuildsWalker` of `walker.rs`, `EmptiesWalker` and `ReposWalker` each drive a pre-order directory walk.
  - The walk is modelled as a class over a stack of pending listings (`WalkDir.WalkDirIter`), with `next` and `skip_current_dir`.
  - Each walker is a class whose `Next` loop is proved against a specification of the whole remaining walk (`WalkDir.ScanList`). That specification visits items in pre-order, leaves out the subtree after a skip and stops at the first fatal error.
  - The classification of an entry is a pure function: `build_artifacts`, `is_folder_empty` and `is_folder_a_repo`.
  - A tree is a `Node` value: a file, or a directory with its children and an optional error for reading it.
- **Repository commands** (`src/commands/repos.rs`). What git2 would report becomes input data: the head, the local branches with their ahead/behind counts, the remotes with their connect and fetch outcomes, and the status count. What the commands print becomes output data.
  - The per-command handlers and the `output_err!` rewriting are functions.
  - `fetch_all_remotes` and the `repos_handler` loop are methods proved against functions.
- **Platform configuration.** Covers `validate_unique_values`, `validate_platform`, the step-by-step message of `validate_platforms`, `validate_platforms_filter`, and the `supported_platforms` listing.
- **Arguments and display.** Covers `Selection`, `AllValues`, `list_output`, and the yes/no prompt decoding of `yes_no_question`.

Strings are `seq<char>`. Lower-casing, trimming and case-insensitive comparison are the ASCII versions. A path is a sequence of components, and its text is those components joined with "/".

## Model

| member | source | states |
|---|---|---|
| WalkDir.WalkDirIter.Next | src/commands/walkers/builds_walker.rs:29 | the next entry is the head of the pre-order sequence still pending; a directory's children come next; the pending size shrinks |
| WalkDir.WalkDirIter.SkipCurrentDir | src/commands/walkers/builds_walker.rs:36 | drops the rest of the most recently opened directory's listing, and nothing else |
| WalkDir.LoopStep | src/commands/walkers/builds_walker.rs:28-47 | one turn of a walker loop: an abort ends the walk with its message; a skip drops the entry's subtree; a pass goes on below the entry; an emit puts the entry's hit first |
| WalkDir.ScanItemHits | src/commands/walkers/builds_walker.rs:31-39 | every hit of a walk is an entry whose verdict emitted that very value |
| WalkDir.ScanNodeUnnested | src/commands/walkers/builds_walker.rs:33-38 | in a tree with distinct sibling names, a walk that skips below every hit yields no hit inside another |
| Text.Trim | src/cli/selection.rs:62 | `str::trim` is never longer than its input, and what it leaves neither starts nor ends with whitespace |
| Text.TrimSlice | src/cli/selection.rs:62 | what `str::trim` keeps is one contiguous slice of its input, and every character before or after that slice is whitespace |
| Text.TrimPadded | src/cli/selection.rs:67-70 | whitespace around a value that neither starts nor ends with whitespace is exactly what trimming removes |
| Text.TrimBlank | src/cli/selection.rs:67 | a piece made only of whitespace trims to nothing, so it is dropped |
| Text.TrimKeepsVisible | src/cli/selection.rs:67-70 | every non-whitespace character of the input survives trimming |
| Text.TrimIdempotent | src/cli/selection.rs:67-70 | trimming twice gives what trimming once gives |
| Text.Split | src/cli/selection.rs:66 | `split(',')` is never empty, its pieces hold no comma, and joining them back gives the input |
| Text.SplitJoin | src/cli/selection.rs:66 | splitting a join of separator-free pieces gives back the pieces |
| Text.RemoveAllAbsent | src/commands/repos.rs:27 | `replace` of a pattern that does not occur leaves the text unchanged |
| Text.RemoveAllFirst | src/commands/repos.rs:27 | when the pattern starts nowhere inside the leading text, `replace` keeps that text, drops the pattern after it and goes on with the rest |
| Display.ListOutput | src/utils/display.rs:5-35 | the loop with `add_separator` and the final " & " builds the closed form `Listed` |
| Display.ListedShort | src/utils/display.rs:11-13 | an empty list gives "", one item gives that item |
| Display.ListedPair | src/utils/display.rs:26-32 | two items give "a & b", or just "b" when "a" is empty |
| Display.ListedMany | src/utils/display.rs:18-32 | from three items on (or two with a non-empty first), the first n-1 are joined by ", ", then " & " and the last |
| Display.ListedFive | src/utils/display.rs:5-35 | five items render as the first four joined by ", ", then " & " and the last |
| Display.ListedFiveExample | src/tests/utils/display.rs:4-10 | five items render as "One, Two, Three, Four & Five" |
| Display.ListedThreeExample | src/tests/utils/display.rs:22-28 | three items render as "One, Two & Three" |
| Display.ListedTwoExample | src/tests/utils/display.rs:31-37 | two items render as "One & Two" |
| Display.ListedOneExample | src/tests/utils/display.rs:13-46 | one item renders as itself, and no item as "" |
| ArgText.CommaValues | src/cli/selection.rs:66-72 | the values are the pieces between commas, each trimmed, blank ones dropped, in order; every value is non-empty, already trimmed and comma-free |
| ArgText.NonBlankOne | src/cli/selection.rs:67-71 | one piece gives its trimmed text, or nothing when that is empty |
| ArgText.NonBlankAppend | src/cli/selection.rs:66-72 | the pieces are handled one at a time, so the values of two runs of pieces come out one run after the other |
| ArgText.NotAllTokenWithComma | src/cli/selection.rs:62 | a text with a comma anywhere is never the word "all" |
| ArgText.CommaValuesJoin | src/cli/selection.rs:65-72 | parsing a comma-joined list of clean values gives back that list |
| ArgText.AllTokenJoin | src/cli/selection.rs:62 | a comma-joined list of clean values reads as "all" only when it is the single word "all" in some case |
| CliSelection.FromStr | src/cli/selection.rs:61-75 | `All` exactly for "all" in any case and with any surrounding whitespace; otherwise `Select` of the comma pieces, trimmed, blank ones dropped, in order, all clean |
| CliSelection.FromStrJoin | src/cli/selection.rs:61-75 | parsing the comma-joined values gives `Select` of exactly those values |
| CliSelection.Matches | src/cli/selection.rs:30-35 | `All` matches everything; a list matches iff some value equals the argument ignoring ASCII case |
| CliSelection.Pluralize | src/cli/selection.rs:38-44 | the plural for `All` or more than one value, otherwise "" |
| CliSelection.Choose | src/cli/selection.rs:22-27 | the `all` argument for `All`, the `select` argument for a list |
| CliSelection.Show | src/cli/selection.rs:47-56 | "all", or `list_output` of the values |
| CliSelection.FromStrAllExample | src/tests/cli/selection.rs:6-11 | "all " parses to `All` |
| CliSelection.FromStrUntidyExample | src/tests/cli/selection.rs:13-25 | "a, b,c ,, d " parses to the four values a, b, c, d in order |
| CliSelection.UntidySplit | src/tests/cli/selection.rs:24 | the untidy list splits at its commas into "a", " b", "c ", "" and " d " |
| CliSelection.UntidyValues | src/tests/cli/selection.rs:14-19 | trimming those pieces and dropping the blank one leaves a, b, c, d |
| CliSelection.FromStrListExample | src/tests/cli/selection.rs:28-39 | "a,b,c,d" parses to the four values in order |
| CliSelection.MatchesExamples | src/tests/cli/selection.rs:42-120 | the matching results the tests pin |
| CliSelection.ShowExamples | src/tests/cli/selection.rs:50-148 | the display, pluralisation and choice results the tests pin |
| CliAllValues.FromStr | src/cli/all_values.rs:70-84 | the same grammar: `All` exactly for the "all" token, otherwise `Values` of the comma pieces, trimmed, blank ones dropped, in order, all clean |
| CliAllValues.Matches | src/cli/all_values.rs:39-44 | `All` matches everything; a list matches only an exact, case-sensitive member |
| CliAllValues.Pluralize | src/cli/all_values.rs:47-53 | the plural for `All` or more than one value, otherwise "" |
| CliAllValues.ForAll | src/cli/all_values.rs:23-28 | the first argument for `All`, the second for a list |
| CliAllValues.ForSelect | src/cli/all_values.rs:31-36 | the first argument for a list, the second for `All` |
| CliAllValues.ForSelectMirrorsForAll | src/cli/all_values.rs:23-36 | `for_select(a, b)` is `for_all(b, a)` |
| CliAllValues.Show | src/cli/all_values.rs:56-65 | "all", or the values joined by the separator |
| CliAllValues.ShowFromStr | src/cli/all_values.rs:56-84 | a list shown with a comma separator parses back to itself |
| Platforms.Extension | src/commands/walkers/builds_walker.rs:78-81 | the text after the last dot, never holding a dot; "" when the name has no extension |
| Platforms.HasExtensionLastDot | src/commands/walkers/builds_walker.rs:78 | a name has an extension iff its last dot is after its first character and it is not ".." |
| BuildsWalker.AnyMarks | src/commands/walkers/builds_walker.rs:75-89 | the count of marking entries is positive iff some readable entry's lower-cased name or extension is associated |
| BuildsWalker.FirstPlatform | src/commands/walkers/builds_walker.rs:67-96 | a platform is found iff the parent path does not contain the folder name and some selected candidate has evidence; the one found is the first such in list order |
| BuildsWalker.ArtifactsOf | src/commands/walkers/builds_walker.rs:62-101 | only a directory matches; it matches iff the substring guard passes and a platform wins; the result names the first winner and the directory's own path |
| BuildsWalker.WalkYieldsMatches | src/commands/walkers/builds_walker.rs:27-48 | every folder yielded is one `build_artifacts` matches, with that match; yielded folders are never nested |
| BuildsWalker.BuildsWalker.Next | src/commands/walkers/builds_walker.rs:27-48 | the walk ahead advances by exactly one yielded match, or ends, or exits with the error message naming the root |
| LegacyBuildsWalker.WalkYieldsMatches | src/commands/walker.rs:26-45 | every folder yielded is one `build_artifacts` matches, with that match |
| LegacyBuildsWalker.YieldsNestedFolders | src/commands/walker.rs:32-34 | without the skip, a match inside a match is yielded too, in a concrete tree |
| LegacyBuildsWalker.LegacyBuildsWalker.Next | src/commands/walker.rs:26-45 | yields the next match of the walk ahead, leaving the rest ahead; at the end yields nothing, and the standard-error text is the walk's error message when the walk stopped on one |
| EmptiesWalker.AnyFile | src/commands/walkers/empties_walker.rs:81-90 | the search finds a file only if the subtree holds one; it ends without one only if the subtree holds none and is readable; it fails only on an unreadable directory |
| EmptiesWalker.Decide | src/commands/walkers/empties_walker.rs:27-62 | files pass; hidden directories are skipped unless shown; a directory is yielded iff its subtree holds no file; a non-empty hidden one is skipped; errors abort |
| EmptiesWalker.WalkYieldsEmpties | src/commands/walkers/empties_walker.rs:22-65 | every yielded folder is a readable directory with no file below it, never hidden unless shown; yielded folders are never nested |
| EmptiesWalker.EmptiesWalker.Consider | src/commands/walkers/empties_walker.rs:27-62 | one turn of the loop matches the specification's step on that entry |
| EmptiesWalker.EmptiesWalker.Next | src/commands/walkers/empties_walker.rs:22-65 | the walk ahead advances by exactly one empty folder, or ends, or exits |
| ReposWalker.AnyGitDir | src/commands/walkers/repos_walker.rs:61-71 | true iff some entry is a directory named exactly ".git" |
| ReposWalker.ProbeGit | src/commands/walkers/repos_walker.rs:57-76 | the probe fails iff the directory cannot be read; it finds a repository iff the directory is readable and holds a ".git" directory |
| ReposWalker.Decide | src/commands/walkers/repos_walker.rs:24-43 | a directory is yielded iff it is readable and holds ".git"; the value is the repository opened at its path, with the path; both kinds of error abort with their own message |
| ReposWalker.WalkYieldsRepos | src/commands/walkers/repos_walker.rs:20-45 | every yielded pair is a repository folder with the open result for that same path; repositories are never nested |
| ReposWalker.ReposWalker.Next | src/commands/walkers/repos_walker.rs:20-45 | the walk ahead advances by exactly one repository, or ends, or exits |
| Repos.OutputErr | src/commands/repos.rs:23-39 | nothing is printed iff the error code is `UnbornBranch` |
| Repos.ErrLines | src/commands/repos.rs:23-39 | at most one line, none iff the branch is unborn |
| Repos.OutputErrKeepsMessage | src/commands/repos.rs:27-29 | a message without the location suffix prints as "<path> - Err: <message>" |
| Repos.OutputErrDropsLocation | src/commands/repos.rs:27-29 | the " at '<path>'" suffix is cut out of the message |
| Repos.OutputErrPrefix | src/commands/repos.rs:32-38 | a prefixed line is the prefix, a space, and the unprefixed line |
| Repos.GetBranchName | src/commands/repos.rs:363-373 | `Head(oid)` iff the shorthand is "HEAD" and there is a target; otherwise `Branch` of the shorthand or "" |
| Repos.ShowBranchNameInjective | src/models/branch.rs:10-19 | "branch: <name>" and "head: <oid>" tell every two branch names apart |
| Repos.MainOrMaster | src/commands/repos.rs:391-393 | `^(refs/heads/)?(main\|master)$` matches exactly the four names |
| Repos.RepoIsBranched | src/commands/repos.rs:446-454 | no answer iff the head fails; branched iff the head has a name that is not main or master; a head error is printed |
| Repos.InitOnlyIsQuietlyUnbranched | src/commands/repos.rs:446-462 | an init-only repository has no branched answer and prints nothing |
| Repos.FilterMainBranches | src/commands/repos.rs:322-340 | keeps exactly the error entries and the branches named main or master; keeps everything without `only_main` |
| Repos.FilterMainBranchesOne | src/commands/repos.rs:326-339 | a single entry is kept iff the filter accepts it |
| Repos.FilterMainBranchesAppend | src/commands/repos.rs:322-340 | the filter judges each entry alone and keeps the order, so it distributes over concatenation |
| Repos.Counts | src/commands/repos.rs:283-290 | a branch is considered iff it has an upstream, both targets and ahead/behind counts |
| Repos.Considered | src/commands/repos.rs:277-292 | the considered counts are exactly those of the entries that have them |
| Repos.AnyBranch | src/commands/repos.rs:230 | true iff some considered branch passes the test |
| Repos.AllBranches | src/commands/repos.rs:251 | true iff every considered branch passes the test, which holds when none is considered |
| Repos.AsWrittenComparesCounts | src/commands/repos.rs:225-229 | as written, `Ahead` and `Behind` exclude each other and `Either` is their union |
| Repos.DivergedBranchNotBehindAsWritten | src/commands/repos.rs:228 | as written, a branch 3 ahead and 1 behind is not listed as behind |
| Repos.DivergedBranchInSyncAsWritten | src/commands/repos.rs:249 | as written, a branch 1 ahead and 1 behind counts as up to date |
| Repos.IsInSync | src/commands/repos.rs:248-251 | up to date iff not outdated either way |
| Repos.OutdatedFilters | src/commands/repos.rs:225-229 | `Ahead` iff ahead > 0, `Behind` iff behind > 0, `Either` iff one of them |
| Repos.DivergedIsOutdatedEveryWay | src/commands/repos.rs:225-251 | a diverged branch is outdated under every filter and is not up to date |
| Repos.FetchEach | src/commands/repos.rs:264-274 | the fetch loop fails iff some reached remote fails to fetch; the error is that of the first such remote |
| Repos.FetchAll | src/commands/repos.rs:260-275 | failing to list remotes is an error; otherwise it fails iff a fetch fails |
| Repos.FetchAllRemotes | src/commands/repos.rs:260-275 | the loop with its early return gives the result and the printed lines of `FetchAll` |
| Repos.FindBranch | src/commands/repos.rs:342-361 | a found branch has that name and is an entry; none found means no readable entry has that name |
| Repos.FindLocalBranch | src/commands/repos.rs:342-361 | an error iff the branch list cannot be read; otherwise the search over the entries |
| Repos.Handle | src/commands/repos.rs:109-258 | each command's verdict, with the outdated and up-to-date tests as the `OutdatedFilter` help text describes them: repos always, a detached head iff the head is detached, errors never by the handler, branched, init-only, a named branch, uncommitted changes, no remotes and not init-only, outdated, up to date |
| Repos.HandleMessage | src/commands/repos.rs:186-197 | only the uncommitted-changes listing attaches a message, "changes: " and the count |
| Repos.HandleFailureLines | src/commands/repos.rs:118-258 | a failing git call prints its error line (the head's for the branched listing, after the lines of the remote fetches for the two branch checks); nothing is printed otherwise by those handlers |
| Repos.HandleAsWritten | src/commands/repos.rs:215-258 | the outdated and up-to-date listings with the closures as written: found iff some considered branch passes the count comparison, or every one is tied; every other command as `Handle` |
| Repos.HandleAsWrittenMissesDivergedBehind | src/commands/repos.rs:225-230 | as written, a repository whose branch is 3 ahead and 1 behind is not listed as behind; as meant it is |
| Repos.HandleAsWrittenListsDivergedUpToDate | src/commands/repos.rs:248-251 | as written, a repository whose branch is 1 ahead and 1 behind is listed as up to date; as meant it is not |
| Repos.Outcome | src/commands/repos.rs:410-438 | an open failure counts only for the errors listing; an opened repository counts iff its handler finds it |
| Repos.OneMoreLines | src/commands/repos.rs:410-438 | one more repository adds exactly its own printed lines |
| Repos.FoundFlagsAt | src/commands/repos.rs:418-429 | the flag recorded for each repository is that repository's own verdict |
| Repos.AnyFoundExists | src/commands/repos.rs:418-429 | `found` ends up set iff some repository's verdict sets it |
| Repos.OneMoreFound | src/commands/repos.rs:418-429 | `found` after one more repository is `found` before or that repository's verdict |
| Repos.ReposHandler | src/commands/repos.rs:395-444 | the output is every repository's lines in walk order, then the not-found text iff no repository was found |
| Repos.WithErrorsFindsOpenFailures | src/commands/repos.rs:127-139 | the errors listing finds something iff some repository failed to open |
| Repos.OutcomeLines | src/commands/repos.rs:410-438 | an open failure prints its error only for the errors listing; an opened repository prints its handler's lines, then, when found, "<path> - <branch>[; <message>]" or the error of a failing `head()` |
| Repos.OutcomeUncommittedExample | src/commands/repos.rs:184-197 | a repository at "r" on branch main with two changes prints "r - branch: main; changes: 2" under the uncommitted-changes listing |
| Repos.InitOnlyPrintsPath | src/commands/repos.rs:153-168 | an init-only repository prints its path and counts as found |
| Repos.UpToDateWithoutBranches | src/commands/repos.rs:215-258 | with no considered branch, a repository is up to date and not outdated |
| Validation.KeySet | src/utils/validation.rs:119 | the collected `HashSet` holds exactly the keys of the values |
| Validation.KeySetSize | src/utils/validation.rs:119 | the set is no larger than the list, and as large iff no two values share a key |
| Validation.ValidateUniqueValues | src/utils/validation.rs:114-120 | true iff no two values are equal after lower-casing |
| Validation.ValidatePlatform | src/utils/validation.rs:25-27 | true iff the name has no space and there is at least one folder |
| Validation.ProblemLines | src/utils/validation.rs:39-81 | no line is empty; there are none iff no flag is raised |
| Validation.NamesLines | src/utils/validation.rs:39-53 | at most one names line, present iff a name has a space or names repeat |
| Validation.BuildsLines | src/utils/validation.rs:55-73 | at most one build-artifacts line, present iff some list is empty or repeats |
| Validation.AssociatedLines | src/utils/validation.rs:75-81 | the associated line is present iff some associated list repeats |
| Validation.MessageEmptyIffValid | src/utils/validation.rs:30-95 | the message is empty iff every platform is valid and names, folders and associated values are unique |
| Validation.NamesLineEnding | src/utils/validation.rs:47 | the message so far ends in 's' exactly when the spaces clause was written |
| Validation.NamesComplaint | src/utils/validation.rs:39-53 | the `push_str` steps build the names line |
| Validation.PushLine | src/utils/validation.rs:59-61 | a newline before a line that follows another builds the newline-joined lines |
| Validation.BuildsComplaint | src/utils/validation.rs:61-72 | the build-artifacts line: "require at lease one value", "must be unique", or both joined by " and " |
| Validation.ComposeMessage | src/utils/validation.rs:39-88 | the three optional lines, each after a newline when text precedes it, then the manual-fix suffix when anything was written, give exactly `Message` of the problem lines |
| Validation.ValidatePlatforms | src/utils/validation.rs:30-88 | the `push_str` steps build exactly the message: the problem lines joined by newlines, then the manual-fix suffix and the path |
| Validation.AppendLine | src/utils/validation.rs:59 | joining one more line adds a newline only after a non-empty text |
| Validation.UnsupportedAsWritten | src/utils/validation.rs:100-101 | as written, a value is kept iff every platform name equals it ignoring ASCII case |
| Validation.UnsupportedAsWrittenOne | src/utils/validation.rs:101 | as written, a single value is kept iff every platform name equals it |
| Validation.UnsupportedAsWrittenAppend | src/utils/validation.rs:100-101 | as written, the filter judges each value alone and keeps order and repeats, so it distributes over concatenation |
| Validation.ValidatePlatformsFilterAsWritten | src/utils/validation.rs:98-112 | as written: `All` passes; a list passes iff every value differs from some platform name; otherwise the error names the values every platform name equals |
| Validation.FilterErrorText | src/utils/validation.rs:103-109 | "Unsupported platform: <value>" for one value, "Unsupported platforms: <list>" for several, then a new line and "Supported Platforms: <names>" |
| Validation.AsWrittenAcceptsUnknown | src/utils/validation.rs:100-101 | as written, an unknown value passes when there are two platforms; the corrected check rejects it |
| Validation.AsWrittenRefusesKnown | src/utils/validation.rs:100-101 | as written, a known value in another case is refused when there is one platform; the corrected check accepts it |
| Validation.Unsupported | src/utils/validation.rs:100-101 | keeps exactly the values that no platform name equals ignoring ASCII case |
| Validation.UnsupportedOne | src/utils/validation.rs:101 | a single value is listed iff no platform name equals it |
| Validation.UnsupportedAppend | src/utils/validation.rs:100-101 | the values are judged one by one and keep their order and repeats, so the filter distributes over concatenation |
| Validation.ValidatePlatformsFilter | src/utils/validation.rs:98-112 | `All` always passes; a list passes iff every value is a supported platform; otherwise the error names the unsupported values and lists the platforms |
| Supported.LowerNames | src/commands/supported.rs:52 | the lower-cased names, one per platform, in order |
| Supported.Tally | src/commands/supported.rs:49-58 | the fold counts each key exactly as often as it occurs |
| Supported.InDupes | src/commands/supported.rs:59-61 | a key is in `dupes` iff it is counted more than once |
| Supported.CountRepeated | src/commands/supported.rs:49-61 | counted more than once iff it occurs at two different positions |
| Supported.Status | src/commands/supported.rs:63-69 | the duplicate label iff the lower-cased name is in `dupes`; else the space label iff the name has a space; else "" |
| Supported.DuplicateMarked | src/commands/supported.rs:49-69 | a name gets the duplicate label iff two platforms have its lower-cased name |
| Supported.MarkedAt | src/commands/supported.rs:63-64 | a platform's name is in `dupes` iff another platform has the same lower-cased name |
| Supported.StackLayout | src/commands/supported.rs:71-79 | block i occupies lines 4i to 4i+2; a blank line follows every block but the last; nothing else is printed |
| Supported.ReportNamesPlatforms | src/commands/supported.rs:76 | line 4i is "Platform: " with the i-th name and its status |
| Supported.StackFirstLine | src/commands/supported.rs:71-79 | in a stack of three-line blocks, line 4i is the first line of block i and there are 4n-1 lines |
| Supported.PrintBlocks | src/commands/supported.rs:71-79 | the loop with the `separator` flag and `Once` prints exactly the stacked blocks |
| Supported.SupportedPlatforms | src/commands/supported.rs:46-80 | prints exactly the report over the platforms with their `dupes` |
| Question.Show | src/utils/question.rs:24-31 | "Y/n" for a yes default, "y/N" for a no default |
| Question.Prompt | src/utils/question.rs:50 | the prompt, then " [", the default, "] " |
| Question.PromptShowsDefault | src/utils/question.rs:50 | two prompts for the same text are equal iff their defaults are |
| Question.Decode | src/utils/question.rs:62-69 | 'y' or 'Y' answer yes and 'n' or 'N' answer no, not defaulted; any other byte gives the default, defaulted iff it is '\n' |
| Question.DefaultedOnlyOnEnter | src/utils/question.rs:62-69 | an answer is defaulted iff the byte is '\n'; a defaulted answer is the default; an answer against the default was typed |
| Question.EndOfInputTakesDefault | src/utils/question.rs:58-69 | with nothing read, the zero byte gives the default, not marked defaulted |
| Question.Asked | src/utils/question.rs:49-78 | the prompt is always printed; the outcome is exit status -1 iff the flush or the read fails; otherwise the decoded first byte, or the zero byte |
| Question.YesNoQuestion | src/utils/question.rs:49-78 | the steps around the one-byte buffer give exactly the exchange `Asked` describes |

## Left out

- Filesystem, git2, terminal and network I/O.
  - A directory tree is a value.
  - `read_dir` of a parent path is a function parameter.
  - `Repository::open` is a function parameter.
  - Git facts are input records.
  - Printing to standard output or standard error is returned as text.
  - `display_error_and_exit` is the walkers' `Exit` step, or an `Err(-1)` outcome.
- `validate_path` (src/utils/validation.rs:8-22): it only asks the filesystem whether the path exists and whether it is a file.
- Configuration file handling: loading, resetting, showing its path, and `manage_configuration` (src/commands/supported.rs:11-43, 82-98). The confirm prompts of `builds` and `empties` are left out too; all of these are I/O around a prompt library.
- The credential callback, the configuration fallback chain of `get_config`, and `connect_auth`. A remote is modelled as reached or not, and its fetch as failing or not.
- The parallel iteration of `repos_handler` (`par_bridge` with an atomic `found` flag). The model takes the repositories in walk order, so with several threads the printed lines may come out in another order.
- The regex engine: the single pattern `^(refs/heads/)?(main|master)$` is written out as four names.
- Unicode case mapping and whitespace: only ASCII lower-casing and ASCII whitespace are modelled.
- Symbolic links, per-entry metadata errors and the root's own `file_name`. The root is given as a single path component and its parent text as a parameter.
- WalkDir.PathText: paths are their components joined with "/". A root typed with a trailing separator ("r/") gives "r//x", where `Path::join` gives "r/x"; roots are taken without a trailing separator.
- `unwrap` on the parent of the root path (a panic for "/"): the parent text is a parameter.
- Wildcard matching (src/models/filter.rs): the walkers shown use exact membership in the `associated` and `folders` lists, which is what is modelled.
- The `SEPARATOR` constant used by `Display for AllValues` is not part of this model, so `CliAllValues.Show` takes it as a parameter.
- The handlers of the build and empties commands (src/commands/builds.rs, src/commands/empties.rs): output slicing and counting around the walkers and deletions.
- The listing of platforms that `validate_platforms` prints before it exits: that listing is `Supported.SupportedPlatforms`; the exit itself is left out.
- Repos.Handle: the outdated and up-to-date listings compare each count with zero, as the help text of `OutdatedFilter` (src/cli/commands/repos.rs:99-107) describes, not the two counts with each other as the code does; the code's comparison is `Repos.HandleAsWritten` (see Findings).
- Validation.ValidatePlatformsFilter: refuses the values no platform name equals, as the doc comment at src/utils/validation.rs:97 promises, not the values every platform name equals as the code's `all` at src/utils/validation.rs:101 does; the code's check is `Validation.ValidatePlatformsFilterAsWritten` (see Findings).
- Repos.Handle: the number of status entries is an input count, not computed from a working tree.
- Repos.Handle, detached heads: whether the head is detached is an input answer.

Where the code disagrees with its own comments or help text, the model follows the code, except for the three Findings rows below:

- The doc comment of `validate_platforms_filter` (src/utils/validation.rs:97) says "case-sensitive"; the code compares ignoring ASCII case (src/utils/validation.rs:101), and so does the model.
- The outer walk error of the repository walker (src/commands/walkers/repos_walker.rs:38-41) says it was searching "for empties", a text shared with the empties walker. The model keeps that text (`ReposWalker.WalkErrorMessage`).
- The help text of `OutdatedFilter` (src/cli/commands/repos.rs:99-107) describes `Ahead` and `Behind` as repositories ahead of or behind the remote in commits. The closures (src/commands/repos.rs:225-229, 248-250) compare the two counts with each other instead. `Repos.Handle` follows the help text; `Repos.HandleAsWritten` keeps the code (first two Findings rows).
- The doc comment at src/utils/validation.rs:97 promises that every filter value is a supported platform. The code's `all` at src/utils/validation.rs:101 keeps a value only when every platform name equals it. `Validation.ValidatePlatformsFilter` follows the doc comment; `Validation.ValidatePlatformsFilterAsWritten` keeps the code (third Findings row).

## Findings

| source | as written | input that shows it | evidently intended | confidence | as-written member | corrected member |
|---|---|---|---|---|---|---|
| src/commands/repos.rs:225-229 | `Ahead` is `branch > upstream`, `Behind` is `branch < upstream`, `Either` is `branch != upstream`, on the ahead and behind counts | a branch 3 commits ahead and 1 behind its upstream is not listed by `Behind` | `Ahead` iff ahead > 0, `Behind` iff behind > 0, `Either` iff either is positive | not executed | Repos.HandleAsWrittenMissesDivergedBehind | Repos.Handle |
| src/commands/repos.rs:248-250 | up to date is `branch == upstream` on the two counts | a branch 1 ahead and 1 behind counts as up to date | up to date iff both counts are zero | not executed | Repos.HandleAsWrittenListsDivergedUpToDate | Repos.Handle |
| src/utils/validation.rs:100-101 | a value is unsupported iff `all` platform names equal it | `Select(["Foo"])` with platforms "Rust" and "Web" passes; `Select(["rust"])` with the single platform "Rust" is refused | a value is unsupported iff no platform name equals it | not executed | Validation.AsWrittenAcceptsUnknown | Validation.ValidatePlatformsFilter |

The repository handlers (`Repos.Handle`) use the corrected comparisons `Repos.IsOutdated` and `Repos.IsInSync`. The as-written comparisons are `Repos.CompareAsWritten` and `Repos.InSyncAsWritten`, used by `Repos.HandleAsWritten`; `Repos.DivergedBranchNotBehindAsWritten` and `Repos.DivergedBranchInSyncAsWritten` show the same inputs on the comparisons alone. The as-written filter check is `Validation.ValidatePlatformsFilterAsWritten`.
