# Verification of mamba's release scripts, rc-file editor, exporters, expression parser and constructor pass

A Dafny model of the self-contained algorithms in the mamba repository, with proofs about every
input, every run and every reachable state. `dafny verify dfyconfig.toml` checks the project.

## What is modelled

**The changelog pipeline** (`update_changelog.py`, `releaser.py`, `version_scheme.py`). One script
prints a release as tagged Markdown on top of `CHANGELOG.md`; the other reads it back line by line,
filters it per project and prints it again. Both are modelled down to the characters: Python's
`strip`, `split`, `readlines`, the two patterns, the file opened with `r+` that is overwritten in
place, the section and item objects that are filled in as lines arrive.

- `PyText` (string operations), `ChangelogModel` (values), `VersionScheme`
- `UpdateChangelog` (the writing script), `ReleaserSpec` and `Releaser` (the reading script, on
  values and on objects), `ReleaseLines` (which versions the release pattern finds)
- `ReleasePattern` (what the release pattern matches, as a pattern says it), `Documents` (what the
  reader makes of any document of paragraphs and items), `HandWritten` (releases that were edited by
  hand), `PrintedText` (what stands where in the printed texts)
- `ChangelogRoundTrip`, `OlderText` (what the reader makes of the text below a release),
  `ReleaseTheorems`, `LabelTheorems` (from the labels of the requests to the headings and packages
  under which they are shown), `ProjectRoundTrip` (the two scripts together)

**The rc-list editor** (`micromamba/src/config.cpp`): `RcEditor` (the commands, with the backward
erase loop), `RcRuns` (laws and invariants over runs), `RcOrder` (the order of a list after any run), `RcRefusals`
(which commands are refused, and what no command touches).

**The expression parser** behind version specs (`libmamba/include/mamba/util/flat_bool_expr_tree.hpp`,
`flat_binary_tree.hpp`): `ExprTree` (the tree in one array, the postfix and the infix parser with its
operator stack), `InfixGrammar` (what the parser holds at every moment of a run), `InfixTheorems`
(acceptance, the one reading that precedence leaves, printing and parsing again).

**The environment exporter** (`micromamba/src/env.cpp`): `EnvExport` (the JSON and YAML branches),
`Json` (a reader for the string, array and object part of RFC 8259, sections 2, 4, 5 and 7),
`EnvJson` and `EnvYaml` (the two texts read back, the second by lines of plain scalars as in YAML
1.2.2, section 7.3.3), `EnvTheorems` (both branches for every environment and all flags).

**The constructor's repodata pass** (`micromamba/src/constructor.cpp`): `Constructor` (the pass with its table
of cache files), `ConstructorTheorems` (what the written records hold).

**Smaller parts**: `SubdirIndex` and `Singletons` (`libmambapy/bindings/legacy.cpp`), `Bin2Header`
(`libmamba/data/bin2header.py`), `Completer` (`micromamba/src/completer.cpp`).

Each script or command that changes things step by step is a method (on a class where the source has
objects) proved against a function on values; the lemmas are about those functions. Random choices
of the source, such as the order in which Python iterates over a set, are left open, so the lemmas
hold for every choice.

## Where the code falls short of what it promises

These are theorems, each with the exact condition under which the code does meet the promise.

- A release comes back from the changelog if and only if its version is *readable*: one-digit major
  and minor numbers, then only words and dots (`ReleaseTheorems.RoundTrip`). Version `2.10.0` is
  accepted and printed, and then the reader reports that there is no version
  (`ReleaseTheorems.TwoDigitsAreLost`, `ReleaseTheorems.SuchAVersion`).
- A release that is written on top of some text comes back alone if and only if that text is *unseen*:
  every line that the reader goes through before it sees the next header is blank or an unmatched
  `Release` line (`ReleaseTheorems.RoundTrip`, `OlderText.Unseen`). On an empty file the
  reader runs past the end (`ReleaseTheorems.EmptyFile`); a title in front of the first release
  becomes a section of the new one (`ReleaseTheorems.TitledFile`). Only the first release on a file
  can suffer from this (`ReleaseTheorems.NewestIsRead`).
- GitHub is asked for the details of each request while the changelog is half overwritten. When a call
  fails, the file begins with a part of the release and has lost as much of its older text
  (`UpdateChangelog.Repository.Update`), unless that text began with the very same words
  (`UpdateChangelog.OlderTextIsLost`).
- A project's changelog, read again, gives back the sections and items for the project if and only if
  none of them holds a bracketed list (other than an `all` in a heading) and no item is empty
  (`ProjectRoundTrip.ProjectAgain`). Item texts come back with their bullet
  (`ProjectRoundTrip.TextNeverComesBack`).
- A version such as `1.2.3.` is accepted and its parts no longer spell it
  (`VersionScheme.RejoinsUnlessTrailingDot`).
- `config remove` promises to remove all instances of a value; it does if and only if the list is not
  empty and holds the value at most once (`RcRuns.RemoveIsExact`). Runs whose command lines name no
  value twice keep it that way (`RcRuns.RemoveKeepsPromise`), but a command line may name a value
  twice, and then one instance stays (`RcRuns.RemoveAfterAdd`, `RcRuns.OneInstanceStays`).
- The hand-written JSON of the exporter is read as what it should say if and only if nothing that is
  printed needs escaping (`EnvTheorems.JsonBranchFaithful`). With `--from-history` it does: a spec
  with a range of versions is printed between quotation marks, and the export fails
  (`EnvTheorems.RequestedRange`).
- The infix parser's documentation says that `a + b * c` can be pushed directly; with the default
  comparison of the operators it is read as `(a + b) * c` (`InfixTheorems.SumFirst`). In version specs
  `or` binds more tightly than `and` (`InfixTheorems.OrBindsTighter`).
- `config append` and `prepend` fail on a key that holds a single string, which they never touch
  (`RcRefusals.RefusedIffBad`, `RcRefusals.ScalarStays`).
- A changelog line that starts with a space is never a continuation of an item, although the code has
  a branch for that; it is taken for a heading (`ReleaseTheorems.IndentedLineIsHeading`).
- The completer answers a word of three or more dashes with options that do not begin with it
  (`Completer.OffersBeginWithWord`).

## Model

| member | source | states |
|---|---|---|
| PyText.StripSplits | releaser.py:115 | stripping removes only spaces at the two ends and leaves none there |
| PyText.SplitJoin | version_scheme.py:25-38 | splitting at a character and joining again loses nothing |
| PyText.LinesJoin | releaser.py:123-124 | reading the lines of a file loses nothing |
| VersionScheme.VersionInfo.Init | version_scheme.py:15-66 | the object is filled in with the parts, or the error is the first applicable one with all field errors in order; the name is only set on success |
| VersionScheme.Accepts | version_scheme.py:19-64 | accepted are exactly the strings without `-` made of three digit fields and an empty remainder, a lone dot, or a known pre-release name |
| VersionScheme.ParsesTo | version_scheme.py:32-38 | the parts of an accepted version are the ones it was spelled from |
| VersionScheme.RejoinsUnlessTrailingDot | version_scheme.py:35-38 | joining the parts gives back the name if and only if the name does not end in a lone dot after the numbers |
| VersionScheme.TrailingDotIsForgotten | version_scheme.py:35-38 | every three numbers with a dot behind them are such a name |
| VersionScheme.FieldErrorsAre | version_scheme.py:40-62 | each field error is there if and only if its own field is wrong, in the order of the fields |
| VersionScheme.Refusals | version_scheme.py:19-64 | which strings are refused with which error: a dash, fewer than two dots, and else the errors of the fields between the dots |
| UpdateChangelog.ConcernedPackages | update_changelog.py:70-75 | the loops collect exactly the packages whose directory some file lies in |
| UpdateChangelog.ChooseTags | update_changelog.py:70-84 | the tags are the concerned packages, each once in some order, or `all` for none or all three |
| PrintedText.ConcernsAre | update_changelog.py:70-78 | a request concerns a package if and only if some file lies in the folder of its name, or no file in any of the three |
| PrintedText.DescriptionParts | update_changelog.py:80-84 | title, login and address of a request can be read off its line |
| UpdateChangelog.OpenFile.Write | update_changelog.py:165-187 | writing overwrites from the position on and never truncates |
| UpdateChangelog.AppendToFile | update_changelog.py:47-84 | a heading and one item per pull request, in order, are written, up to the first request whose details GitHub does not answer |
| UpdateChangelog.WriteRelease | update_changelog.py:165-187 | if all requests are answered, the file is the new release followed by everything it held before, with no remnant in between; if not, the part of the release up to the missing answer has replaced the beginning of the file |
| UpdateChangelog.ClassifyRequest | update_changelog.py:136-163 | exactly one release label of a known kind, or the right complaint |
| UpdateChangelog.Dispatch | update_changelog.py:126-163 | four lists by label, or the first pull request that cannot be sorted |
| UpdateChangelog.ListedByLabel | update_changelog.py:132-163 | a pull request is in a list if and only if the list's label is its one release label |
| UpdateChangelog.DispatchConserves | update_changelog.py:126-163 | no pull request is lost and none is listed twice |
| LabelTheorems.KindByLabel | update_changelog.py:136-163 | for each of the four kinds: a request is of it if and only if its one release label is the one of that name |
| LabelTheorems.ComplaintsAre | update_changelog.py:136-163 | a complaint says that there is no release label, how many there are, or the one that is not known, and it is true |
| UpdateChangelog.Repository.Update | update_changelog.py:105-187 | nothing is written unless the version and all labels are in order; then the release stands on top of the unchanged older text, or, when a call fails, exactly what was written up to it has overwritten that text |
| UpdateChangelog.OlderTextIsLost | update_changelog.py:165-187 | after such a failure an older text that is no shorter than what was written over it is still there if and only if it begins with it |
| ReleaserSpec.ProjectKeysOnce | releaser.py:149-155 | each named project but `mamba` becomes one key |
| Releaser.Section.AddHeading | releaser.py:167-185 | a heading line updates text and tags of the section object, and no items; `Documents.ParagraphIsSection` says what any number of them amounts to |
| Releaser.Section.AddItem | releaser.py:173-192 | an item line adds one new item object with its tags and text |
| Releaser.TextLine | releaser.py:161-192 | the section objects after a line hold the sections of the reading after that line, each in an object of its own |
| Documents.BracketsAre | releaser.py:176-183 | the pattern for lists finds one if and only if the line is a part without opening brackets, the list between brackets, and the rest |
| Documents.TagsAre | releaser.py:177 | the tags of a list are its fields between commas without the spaces around them |
| Documents.ParagraphIsSection | releaser.py:161-185 | from any reading without an open section, a paragraph of any number of heading lines adds exactly one section, with the text of all its lines in order and the tags of the last line that has a list, `all` if none has |
| Documents.PlainParagraph | releaser.py:167-187 | without lists and indentation that section has the lines themselves, joined, as its text, and is for all packages |
| Documents.DocumentIsRead | releaser.py:139-192 | any document of paragraphs with items below them is read as exactly one section for each paragraph, in order, with the items below it |
| Releaser.NewEntries | releaser.py:149-155 | every project gets an entry of its own, shared with no other |
| Releaser.ScanLines | releaser.py:139-192 | the loop with its lookahead reads what the line-by-line function reads, with the same failures |
| Releaser.PopulateChanges | releaser.py:97-115 | a project's list grows by its changes; nothing else is modified |
| Releaser.PopulateKey | releaser.py:199-200 | filling one project's list leaves all others as they were |
| Releaser.RenderProject | releaser.py:37-52 | the loop over the changes prints header, changes and closing empty line |
| PrintedText.ProjectHeaderFields | releaser.py:38-42 | name, version and date of a project can be read off the first line of its changelog, in this order |
| PrintedText.SectionIsPrinted | releaser.py:44-52 | a section is printed as its text, and if it has items an empty line, the items line by line, and the rest |
| Releaser.ReadRelease | releaser.py:121-200 | the whole reading script: its error, or the version and every project's changes |
| HandWritten.PlainParagraphIsRead | releaser.py:161-187 | plain lines with an empty line behind them add exactly one section without items, for all packages, whose text is all of the lines |
| HandWritten.IntroIsSkipped | releaser.py:126-138 | lines above the first header do not matter |
| HandWritten.NoHeaderNoRelease | releaser.py:126-138 | there is no release if and only if no line begins with a header |
| HandWritten.HandWrittenIsRead | releaser.py:121-195 | a changelog whose newest release was written by hand, with paragraphs of several lines, is read as its version, its projects and exactly its sections |
| HandWritten.HandWrittenReachesProject | releaser.py:97-200 | a line is among the changes given to a project if and only if it is the text of a paragraph for the project, or an item for the project below such a paragraph |
| ReleaseLines.FoundIsReadable | releaser.py:141-148 | whatever version the pattern finds anywhere in a line is readable |
| ReleaseLines.PrintedMatches | releaser.py:141-149 | a readable version is found on its printed line, with the projects |
| ReleaseLines.UnreadableNotFound | releaser.py:141-143 | any other version of words and dots is not found at any position of its line |
| ReleaseLines.ReadableParts | releaser.py:141 | for accepted versions: readable means one-digit major and minor numbers and a word-or-dot remainder |
| ReleasePattern.MatchIsPattern | releaser.py:141 | the matcher of the release pattern gives a version and names if and only if the text is spelled as the pattern says with these two groups |
| ReleasePattern.SearchIsLeftmost | releaser.py:141 | a search finds what stands at the leftmost place where the pattern matches, and nothing if and only if there is none |
| ChangelogRoundTrip.TagsRead | releaser.py:176-180 | the printed tag list is read as the tags it was printed from |
| ChangelogRoundTrip.ItemRead | releaser.py:173-180 | the first bracket of an item line is its tag list, and the rest its trimmed description, brackets included |
| ChangelogRoundTrip.CategoryRead | releaser.py:161-192 | a printed category is read as one section with its items in order |
| ChangelogRoundTrip.CategoriesRead | update_changelog.py:176-184 | printed categories are read as their non-empty ones, in order |
| ChangelogRoundTrip.ProjectsRead | releaser.py:149-155 | the projects read from a printed release line are the three packages |
| OlderText.OlderIsUnseen | releaser.py:139-192 | reading on below a release leaves it as it is if and only if the older text is unseen |
| OlderText.ChangelogIsUnseen | releaser.py:126-160 | text that begins with a release header is unseen, an empty text is not |
| OlderText.TitleIsTaken | releaser.py:161-192 | a title in front of the first release header is read as a section |
| ReleaseTheorems.WrittenIsScanned | releaser.py:126-192 | below its header a written release is read as release line and categories, and then the reader goes on with whatever the file held before |
| ReleaseTheorems.RoundTrip | update_changelog.py:47-187 | for every accepted version, all categories and any older text: what is written is read back whole, and nothing older, if and only if the version is readable and the older text is unseen |
| ReleaseTheorems.EmptyFile | releaser.py:156-160 | the first release of an empty file is never read: the reader runs past its end |
| ReleaseTheorems.TitledFile | releaser.py:139-192 | on a file with a title, the title becomes a section of the release |
| ReleaseTheorems.TwoDigitsAreLost | releaser.py:141-149 | a version of the documented form with a two-digit major or minor number is written and then not found |
| ReleaseTheorems.SuchAVersion | version_scheme.py:19-66 | `2.10.0` is such a version |
| ReleaseTheorems.ScanReadable | releaser.py:139-149 | in every file, the version found has the shape of the pattern |
| ReleaseTheorems.ScanOutcome | releaser.py:139-195 | on every document of the printed shape the reader neither runs past the end nor meets an item without a section, and it has a version if and only if exactly one release line matches |
| ReleaseTheorems.NextDoesNotMatter | releaser.py:156-160 | nothing below the next release header has any effect |
| ReleaseTheorems.ScanNeedsHeading | releaser.py:167-192 | on such a document where an item stands before the first heading, the reader fails |
| ReleaseTheorems.IndentedLineIsHeading | releaser.py:167-187 | a line that starts with a space always goes to a heading, never to an item, and is recorded twice |
| ReleaseTheorems.TagsApply | update_changelog.py:70-84 | whatever order the tags are printed in, and with the full set shown as `all`, they apply to a package if and only if the request touches it or none of the three |
| ReleaseTheorems.ChangesAre | releaser.py:103-115 | a line is among the changes of a project if and only if it is the text of a section that is for the project or for all (with an empty line in front of all but the first), or an item of such a section that is for the project or for all |
| ReleaseTheorems.ItemChangesAre | releaser.py:113-115 | an item line is there if and only if some item with that text applies to the project |
| ReleaseTheorems.NothingOfOthers | releaser.py:104-108 | what is tagged for other projects alone leaves no trace, not even its heading |
| ReleaseTheorems.ShareOfPackage | releaser.py:97-115 | a package's changes depend on nothing but the pull requests |
| PrintedText.FirstLines | update_changelog.py:165-174 | the file begins with the date, and below it the version with the four projects |
| LabelTheorems.ReleaseShowsLabels | update_changelog.py:132-187 | from labels to headings: the release that is read back has a section for each of the four labels that some request has, in the order Enhancements, Bug fixes, CI fixes and doc, Maintenance, and in it exactly the requests with its label, in order |
| LabelTheorems.RequestUnderItsHeading | update_changelog.py:132-187 | a request stands under `Enhancements:` if and only if it is one of the requests and its one release label is `release::enhancements`, and likewise for the other three headings; under any other heading it never stands |
| LabelTheorems.EveryPackageGetsItsShare | update_changelog.py:126-187 | from labels to changes: exactly the three packages, each given exactly the requests that concern it, in order, under the headings of their labels |
| LabelTheorems.LineReachesPackage | releaser.py:97-115 | after writing and reading, a request's line is among the changes of a package if and only if the request is in one of the four lists and concerns the package |
| ReleaseTheorems.EarlierIsSuffix | update_changelog.py:187 | over any sequence of releases every earlier state of the file is a suffix of every later one |
| ReleaseTheorems.NewestIsRead | releaser.py:126-138 | after any sequence of releases on any file the newest one is read; only the first one can fail, and comes back if and only if the file's text is unseen |
| ReleaseTheorems.ReadAfterCut | update_changelog.py:165-187 | after a run that was cut short the next complete release is read whole |
| ProjectRoundTrip.ProjectAgain | releaser.py:38-52 | a project's changelog is read as the sections kept for it, with its items in order, all tagged `all`, if and only if no heading and no item of it holds a bracketed list or is empty; and no release line is found in it |
| ProjectRoundTrip.OnceAround | releaser.py:97-192 | writing, reading, printing for a package and reading again yields the written categories filtered to that package, if and only if no request for it has a bracketed list in its description |
| ProjectRoundTrip.RereadIsFiltered | releaser.py:161-192 | which sections come back as they should, section by section and item by item |
| ProjectRoundTrip.ItemComesBack | releaser.py:173-192 | an item comes back for all projects, with its bullet in its text, if and only if it holds no bracketed list, which would be taken for its tags |
| ProjectRoundTrip.TextNeverComesBack | releaser.py:189-192 | no item text comes back as it was |
| RcEditor.EraseAll | micromamba/src/config.cpp:277-284 | the backward loop, which moves its index down before each look and erases in place, removes every occurrence and keeps the order of the rest |
| RcEditor.EraseEach | micromamba/src/config.cpp:275-284 | the loop around it removes every new value |
| RcEditor.Yaml.SetSequence | micromamba/src/config.cpp:247-301 | the document after one pair, or the right complaint |
| RcEditor.RcFile.SetSequences | micromamba/src/config.cpp:304-331 | the file holds the effect of all pairs in order, or is untouched when any of them is refused |
| RcEditor.RcFile.RemoveKey | micromamba/src/config.cpp:376-400 | the key is gone and nothing else |
| RcEditor.RcFile.Remove | micromamba/src/config.cpp:440-485 | the first hit is removed, and the key with its last value; wrong arguments leave the file alone |
| RcRefusals.RefusedIffBad | micromamba/src/config.cpp:247-331 | `append` and `prepend` succeed if and only if every pair is a valid list for a key that does not hold a single string; then nothing but the named keys has changed, and otherwise the complaint is the one about the first bad pair |
| RcRefusals.ScalarStays | micromamba/src/config.cpp:247-485 | over all runs: a key that holds a single string keeps it until that key is removed |
| RcRefusals.RemoveNeedsTwo | micromamba/src/config.cpp:440-452 | with fewer than two arguments `remove` complains, with more it does nothing |
| RcEditor.WithoutTwice | micromamba/src/config.cpp:274-284 | erasing one list of values and then another is erasing both |
| RcRuns.AddTwice | micromamba/src/config.cpp:270-296 | append and prepend are idempotent |
| RcRuns.AbsentIsEmpty | micromamba/src/config.cpp:271-300 | an absent key behaves like an empty list |
| RcRuns.DifferentKeysCommute | micromamba/src/config.cpp:247-301 | edits of different keys commute, refusals included |
| RcRuns.AddedContents | micromamba/src/config.cpp:270-296 | no value is lost or invented, the new ones stand at their end in their order, and no duplicates arise |
| RcRuns.RemovesAllInstances | micromamba/src/config.cpp:458-473 | the loop removes all instances, and nothing else, if and only if the value occurs at most once |
| RcRuns.RemoveIsExact | micromamba/src/config.cpp:454-475 | in any file, `remove` does what its help promises, exactly all instances and the key with its last value, if and only if the list is not empty and holds the value at most once |
| RcRuns.RemovesNeeded | micromamba/src/config.cpp:454-475 | in any file, it takes as many `remove` commands as there are instances |
| RcRuns.AddOneTidy | micromamba/src/config.cpp:247-301 | one accepted pair keeps a file tidy if and only if its list names no value twice and is not the empty list of a new key |
| RcRuns.RunHolds | micromamba/src/config.cpp:247-485 | over all runs, no list holds a value more often than the file did at first or one list of the command lines does |
| RcRuns.RemoveAfterAdd | micromamba/src/config.cpp:268-475 | after append or prepend to a tidy file, a value survives one `remove` if and only if the command line named it more than once |
| RcRuns.OneInstanceStays | micromamba/src/config.cpp:454-475 | an input on which one instance stays: `a,a` appended, then `a` removed |
| RcRuns.RunTidy | micromamba/src/config.cpp:247-485 | in every file reached by command lines whose lists are non-empty and name no value twice, all lists are so |
| RcRuns.RemoveKeepsPromise | micromamba/src/config.cpp:415-475 | in every file reached by command lines that name no value twice, `remove` removes all instances, keeps the order of the rest, drops the key exactly with its last value, and touches nothing else |
| RcOrder.RunIsEdits | micromamba/src/config.cpp:247-485 | a run acts on each key as its edits of that key |
| RcOrder.OrderedByLastTouch | micromamba/src/config.cpp:268-296 | a list holds exactly the values whose last touch left them there, prepended ones first with later calls earlier, then appended ones with later calls last, each call in its own order |
| RcOrder.OnlyOneList | micromamba/src/config.cpp:268-296 | that order and those values determine the list |
| RcOrder.RunOrdersEachKey | micromamba/src/config.cpp:247-485 | the same for every key over whole runs of all commands, whose lists name no value twice, on a file that did not have the key |
| ExprTree.FlatTree.AddBranch | libmamba/include/mamba/util/flat_binary_tree.hpp:231-246 | a branch is added behind its children, and becomes the root if it is a parent of the root |
| ExprTree.PostfixParser.PushOperator | libmamba/include/mamba/util/flat_bool_expr_tree.hpp:271-283 | the last two trees without a parent are joined, or the operator is refused; the first of them stays the root |
| ExprTree.InfixParser.PushOperator | libmamba/include/mamba/util/flat_bool_expr_tree.hpp:412-433 | operators that bind more tightly are joined first |
| ExprTree.InfixParser.PushRight | libmamba/include/mamba/util/flat_bool_expr_tree.hpp:461-483 | everything up to the parenthesis is joined, which the level says is there |
| ExprTree.InfixParser.Finalize | libmamba/include/mamba/util/flat_bool_expr_tree.hpp:485-509 | what is left is joined into one tree, whose root is the root of the array |
| ExprTree.Parse | libmamba/src/specs/version_spec.cpp:694-798 | a list of tokens is refused, or makes the tree that the run on values makes |
| InfixGrammar.PopsHold | libmamba/include/mamba/util/flat_bool_expr_tree.hpp:423-431 | taking operators from the stack keeps what the stacks spell and how its operators are ordered |
| InfixGrammar.RunRepresents | libmamba/include/mamba/util/flat_bool_expr_tree.hpp:386-483 | after every run the stacks hold open parentheses, operands and operators that spell the tokens; the pushes succeed if and only if the checks pass, so no operator ever lacks its operands |
| InfixTheorems.AcceptedIffGrammar | libmamba/include/mamba/util/flat_bool_expr_tree.hpp:386-509 | for every list of tokens and whatever the precedence: all pushes and the final call succeed if and only if the tokens are those of an infix expression or there are none |
| InfixTheorems.ParsedIsCanonical | libmamba/include/mamba/util/flat_bool_expr_tree.hpp:386-509 | a tree is always that of an expression which spells the tokens and is grouped as precedence says |
| InfixTheorems.OneReading | libmamba/include/mamba/util/flat_bool_expr_tree.hpp:370-384 | there is only one such expression |
| InfixTheorems.CanonicalIsRead | libmamba/include/mamba/util/flat_bool_expr_tree.hpp:65-72 | so the tokens of an expression that is grouped as precedence says are read as its tree and no other |
| InfixTheorems.PrintedIsRead | libmamba/include/mamba/util/flat_bool_expr_tree.hpp:597-644 | whatever tree the array holds, what its visit prints is parsed as the same tree again |
| InfixTheorems.ThreeOperands | libmamba/include/mamba/util/flat_bool_expr_tree.hpp:423-432 | of two operators in a row the first is applied first if and only if the second compares less |
| InfixTheorems.SumFirst | libmamba/include/mamba/util/flat_bool_expr_tree.hpp:70-73 | with the default comparison `a + b * c` is read with the sum first |
| InfixTheorems.EvaluateTokens | libmamba/include/mamba/util/flat_bool_expr_tree.hpp:563-595 | an expression has a value if and only if it is in the grammar or empty, and it is what its canonical reading means |
| InfixTheorems.OrBindsTighter | libmamba/include/mamba/util/flat_bool_expr_tree.hpp:128-132 | `a or b and c` is `(a or b) and c`, and differs from the other reading if and only if `a` holds and `c` does not |
| Json.ParsedHasInk | micromamba/src/env.cpp:198 | no text is read as a value without the visible characters the value takes |
| Json.CleanIsRead | micromamba/src/env.cpp:198 | a string without characters that need escaping is read to the letter |
| EnvExport.WriteJsonDependency | micromamba/src/env.cpp:145-173 | the pieces written for a record form its quoted dependency |
| EnvExport.JsonDependencies | micromamba/src/env.cpp:137-179 | the first loop writes the kept dependencies in order with its separator flag, and collects their channels |
| EnvExport.JsonPips | micromamba/src/env.cpp:185-191 | the second loop does so for the wheels, with the flag used anew |
| EnvExport.ExportJson | micromamba/src/env.cpp:125-212 | the text of both loops is parsed and handed over with the channels, or parsing fails |
| EnvExport.YamlDependencies | micromamba/src/env.cpp:231-270 | the YAML loop keeps the same dependencies and channels |
| EnvExport.ExportYaml | micromamba/src/env.cpp:213-287 | the whole YAML text, with every channel listed once |
| EnvJson.CleanTextIsRead | micromamba/src/env.cpp:137-199 | the text is one array that is read as one string per kept record in order and one pip object if and only if there are wheels |
| EnvJson.JsonFaithful | micromamba/src/env.cpp:137-199 | so it is if and only if no string in it holds a character that needs escaping |
| EnvJson.BrokenText | micromamba/src/env.cpp:145-199 | where a quotation mark ends a dependency early and nothing follows that may follow an item, there is no JSON at all |
| EnvYaml.YamlFaithful | micromamba/src/env.cpp:227-285 | the YAML entries, read line by line, are the same list if and only if every one of them is a plain scalar |
| EnvYaml.DocumentFaithful | micromamba/src/env.cpp:222-287 | the whole YAML document, read line by line, gives back name, channels, entries and prefix if and only if all of them are plain scalars |
| EnvTheorems.HistoryIsListed | micromamba/src/env.cpp:140-153 | from history: the dependencies are what was asked for of each record that was asked for, in order, and nothing else |
| EnvTheorems.EveryRecordIsListed | micromamba/src/env.cpp:137-173 | otherwise there is one dependency for each record, in order |
| EnvTheorems.ChannelsAre | micromamba/src/env.cpp:137-149 | the channels are exactly those that some listed record stands for |
| EnvTheorems.WheelsAre | micromamba/src/env.cpp:185-191 | one entry for each wheel, in order, with two equality signs between name and version |
| EnvTheorems.CleanDependencies | micromamba/src/env.cpp:140-173 | for all flags, with or without history: the dependencies need no escaping if and only if nothing does that is printed of a kept record |
| EnvTheorems.JsonBranchFaithful | micromamba/src/env.cpp:125-212 | for all environments and flags: the JSON branch hands over what it should if and only if nothing that is printed needs escaping |
| EnvTheorems.YamlBranchFaithful | micromamba/src/env.cpp:213-287 | for all environments and flags: the YAML branch writes what it should if and only if all that it writes are plain scalars |
| EnvTheorems.OrdinaryIsPlain | micromamba/src/env.cpp:244-264 | an installed package, named as packages are, is a plain scalar whatever the flags |
| EnvTheorems.DependencyFields | micromamba/src/env.cpp:154-173 | for all flags: channel and platform, name, version, build and checksum can be told apart in a dependency |
| EnvTheorems.FormatsAgree | micromamba/src/env.cpp:125-290 | for the same records, history and flags both formats give back the same dependencies, wheels and channels, if and only if nothing that is printed needs escaping in JSON |
| EnvTheorems.RequestedRange | micromamba/src/env.cpp:150-153 | an environment whose history asks for a range of versions: the JSON export fails, the YAML export is read back |
| Constructor.Lookup | micromamba/src/constructor.cpp:130-145 | the table of files already read answers as reading the file again would |
| Constructor.BuildRecord | micromamba/src/constructor.cpp:151-203 | the step-by-step updates give the merged and normalised record, or the type error |
| Constructor.Construct | micromamba/src/constructor.cpp:81-208 | for every list of URLs the pass with its table writes the records, and stops at the failure, of a pass that reads every file again |
| Constructor.RecordFields | micromamba/src/constructor.cpp:147-203 | every key of every record, with the priority between URL, cached record, index and file |
| Constructor.RecordComplete | micromamba/src/constructor.cpp:177-203 | size and both dependency lists are always there, track features are never empty, and a zero size means an empty file |
| Constructor.NormaliseTwice | micromamba/src/constructor.cpp:173-203 | normalising twice changes nothing |
| Constructor.OwnTablesDecide | micromamba/src/constructor.cpp:83-145 | the whole pass depends on the caches only through the table for each package's own format in the file of its own channel |
| Constructor.LongerList | micromamba/src/constructor.cpp:107-208 | a longer list of URLs begins with the records of a shorter one, and the first failure ends both |
| ConstructorTheorems.OneRecordEach | micromamba/src/constructor.cpp:107-208 | the records are those of the URLs, in order, up to the first failure |
| ConstructorTheorems.CachedRecordWins | micromamba/src/constructor.cpp:83-203 | whenever the file named from the URL without its file name exists and the table of the package's own format in it holds an object under the file name, the written record has the value of that object at each of its keys, and the value of the index at every other; seven keys are then completed as in every record |
| ConstructorTheorems.UncachedFromIndex | micromamba/src/constructor.cpp:83-203 | when file, table or entry is missing, the record comes from the index, the size of the file and the checksums of the URL |
| ConstructorTheorems.NormalisedKeys | micromamba/src/constructor.cpp:171-208 | every record stands under its file name, with file name, URL and channel of the URL, and with size and both dependency lists |
| ConstructorTheorems.NoFailureIff | micromamba/src/constructor.cpp:81-208 | the pass goes through if and only if every URL, its index and its cache file can be read and merged |
| SubdirIndex.Index.PushBack | libmambapy/bindings/legacy.cpp:170 | a full buffer is replaced by a larger one with the same cells |
| SubdirIndex.Index.Create | libmambapy/bindings/legacy.cpp:156-178 | both vectors stay equally long, every entry points to the current cell of its subdir also after the buffer has moved, and a loader that cannot be created leaves the object unchanged |
| Singletons.Library.GetSingletons | libmambapy/bindings/legacy.cpp:113-120 | the accessor fails exactly when no context is alive |
| Singletons.Library.NewContext | libmambapy/bindings/legacy.cpp:967-977 | refused while a context is alive; otherwise the new handle is the only one and leads into the new set |
| Singletons.Library.Destroy | libmambapy/bindings/legacy.cpp:122-129 | with the handle the whole set goes |
| Bin2Header.ArrayIsData | libmamba/data/bin2header.py:37-43 | the array that the header defines is the data and one zero byte |
| Bin2Header.ChunkSizes | libmamba/data/bin2header.py:39-41 | as many lines as twelfths of the data, rounded up, all but the last of twelve bytes |
| Bin2Header.HeaderIsData | libmamba/data/bin2header.py:31-44 | who reads the whole header again, with or without the extern lines, gets under the given name the data, one zero byte behind it, and its length |
| Bin2Header.LengthIsRead | libmamba/data/bin2header.py:44 | the declared length is the number of bytes |
| Completer.OverwriteCallbacks | micromamba/src/completer.cpp:107-122 | though the shared vector only grows, every command of the tree completes for itself and for no other, and the vector lists the tree in preorder |
| Completer.PreorderIsTree | micromamba/src/completer.cpp:107-122 | the walk over the commands meets the top command and whatever stands below a command it meets, and nothing else |
| Completer.Session.CompleteOptions | micromamba/src/completer.cpp:19-104 | the first callback with words to complete answers, all later ones are silent, and the printed table holds exactly: behind `-n` the environments that begin with the word, without a dash the subcommands that do, behind `--` the long options and behind `-` the short options that go on as the word does |
| Completer.CompletionsAnswer | micromamba/src/completer.cpp:46-101 | the same of the function on values, branch by branch and by membership |
| Completer.OffersConcat | micromamba/src/completer.cpp:56-101 | the offers stand in the order of the names |
| Completer.OffersBeginWithWord | micromamba/src/completer.cpp:56-101 | what is offered begins with the word that was typed, environments always, all else if and only if the word does not begin with three dashes |

## Left out

- Letters and digits beyond ASCII in `\w`, `\d` and `isdigit`: words and digits are ASCII here (spaces are Python's full set).
- Carriage returns: texts are taken after Python's newline translation.
- Calls to `gh` and `git`, the extraction of pull request numbers from the log, dates, prompts, command lines and terminal output: their results are parameters. Of the calls that may fail, only those made while the changelog is open are modelled as failing, since no other leaves a trace.
- `apply_changelog` beyond the changelog text (version templates) and `commands` in `releaser.py`: substitution and printing only.
- The YAML and JSON libraries: an rc file is a map from keys to a string or a list of strings; nested maps in it, and duplicate keys, are not modelled. The search loops over its entries are map lookups.
- YAML beyond plain scalars on one line: quoted and folded scalars, comments, anchors and tags are rejected by the reader, as none of them would be read as the text that stands there. The types that a schema gives to plain scalars such as `3.8` are not modelled: a scalar is its text.
- The parsing of single version predicates, and the lexing of version specs: the expression parser starts from tokens. The comparison of its operators is any strict weak ordering.
- JSON numbers and literals: the JSON reader rejects them, as no text of the exporter should hold them.
- The order in which the exporter lists its channels: a set in both formats.
- `cache_name_from_url`, `PackageInfo::from_url`, `MatchSpec::to_string`, `Channel::display_name`, the validity and reading of rc values: functions that are given.
- Extraction of packages, the file system and file sizes in the constructor pass: functions that do not change during the pass. JSON numbers are integers there.
- EraseAll: the C++ iterator is an integer index; that decrementing it before the first element or using it after an erase is undefined in C++ is not modelled.
- Destroying a `SubdirIndex`, and its download step.
- The mock subcommands of `micromamba/src/completer.cpp` and its reading of the environments directory, CLI option wiring, pybind11 registration, `login.cpp`, package file handling: easy members or thin wrappers.
