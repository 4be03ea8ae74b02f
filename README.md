# simulation_visualizer: format detection and extraction, verified

simulation_visualizer is a Dash web application. It plots the tabular output of
simulations (LAMMPS logs, PLUMED COLVAR files, DeePMD-kit training and
model-deviation files) that live on remote hosts. This project models in Dafny
the engine behind it:

- **Extraction engine.** `DataExtractor` of `file/extractor.py` runs every
  registered parser against every selected (host, path) pair, best filename
  match first, on a thread pool. It collects one result per file, then merges
  the results (`merge`: stacked frames labelled by their distinct directory
  names; `parallel`: joined columns) or builds a combined header. The older
  single-file `DataExtractor` of `parser.py` is modelled too.
- **Plugin registry.** The `ParserMount` metaclass appends every parser class
  to a shared list. `load_parsers()` imports the plugin modules and survives
  an `ImportError`. `FileParser` supplies the capability check, the class-level
  session id and the default axis suggestion.
- **Header parsers.** The newer LAMMPS and COLVAR parsers of `file/parsers/`,
  and the legacy LAMMPS, COLVAR and DeePMD parsers of `parsers/`.
- **Helpers of `utils.py`.** `all_equal`, the users file, the qstat
  configuration value normalisation and the grouped file-size summation.
- **Browser-address callbacks of `visualize/url.py`.** The address is written
  from the selection and the files, and read back.
- **Path-selector callbacks of `visualize/path_input.py`.** Selectors are
  added, removed and counted, and the selection is displayed.

The thread pool is modelled by running the jobs one after another, in an
arbitrary completion order that is a parameter (a permutation of the job
indices). Every property of the dispatcher holds for every such order. Remote
files are a map from (host, path) to lines. The outcome of each extraction call
(a frame or header, or an exception) is supplied per call.

Where the code and its documentation disagree, the model follows the code:

- `extract(mode="merge")` never rejects frames with different columns.
  `all_equal` gives a `bool`, which is never greater than 1.
- `_get_async` of `file/extractor.py` returns a `CannotHandleException` when
  the jobs run out. It does not return the last error.
- `remove_host` deletes the element at the position of the first matching id
  in the list of ids. That list skips elements without an id, so the deleted
  element can be the wrong one.
- `change_host` counts the selectors after the edit and adds a shift of ±1.
  After an add the new selector is still an `html.Div` object, which the count
  does not see, so the +1 stands for it. After a remove the count already
  reflects the deletion, so the −1 hides the merge control with two selectors
  left.

## Model

| member | source | states |
|---|---|---|
| Plugin.SuggestAxis | simulation_visualizer/file/parser_meta.py:155-167 | the default suggestion has one index per axis, `t` equal to `x`, and three distinct indices; it fits a header exactly when the header has at least three columns |
| Plugin.Declare | simulation_visualizer/file/parser_meta.py:66-69 | a parser subclass that declares no name or expected filename inherits `GENERIC` for both from `FileParser` |
| Plugin.ParserClass.SetSessionId | simulation_visualizer/file/parser_meta.py:123-126 | the session id is one class-level slot: after the call it holds the new id, whatever it held before |
| Plugin.ParserMount.constructor | simulation_visualizer/file/parser_meta.py:33-37 | defining the base class creates the shared parser list empty |
| Plugin.ParserMount.Mount | simulation_visualizer/file/parser_meta.py:38-40 | defining a subclass appends a new class object to the shared list, after the earlier ones, whatever its name |
| Plugin.DuplicateNamesKept | simulation_visualizer/file/parser_meta.py:38-40 | two classes declared under one name are both registered, in order, as distinct classes |
| Plugin.FileOpener | simulation_visualizer/file/parser_meta.py:73-105 | a passed-in file object is used as it is; otherwise the remote file is opened at its start, or opening raises `FileNotFoundError` for a missing file |
| Plugin.CanHandle | simulation_visualizer/file/parser_meta.py:128-153 | the answer is true exactly when one of the first 100 lines read starts with the header pattern; a missing file raises out of the check |
| Plugin.LateHeaderNotSeen | simulation_visualizer/file/parser_meta.py:144-153 | a header that first appears after the 100-line window is not recognised |
| LegacyPlugin.SuggestAxis | simulation_visualizer/parser.py:143-155 | the legacy suggestion has the same x, y and z indices as the newer one and no time axis |
| LegacyPlugin.CanHandle | simulation_visualizer/parser.py:116-141 | the legacy check answers from the first line alone; a missing file raises |
| LegacyPlugin.LegacyAcceptImpliesScan | simulation_visualizer/parser.py:131-137 | every file the legacy one-line check accepts is accepted by the newer 100-line scan |
| LegacyPlugin.ScanAcceptsWhereLegacyRejects | simulation_visualizer/file/parser_meta.py:144-150 | the converse fails: a COLVAR file with its FIELDS line second passes the scan but not the legacy check |
| Loader.Import | simulation_visualizer/file/parsers/__init__.py:16-17 | an import registers classes and never unregisters any; a completed import is remembered; a failed one is not; importing an already imported module changes nothing |
| Loader.Load | simulation_visualizer/file/parsers/__init__.py:8-21 | loading only grows the registry, and the exception that escapes is never an `ImportError` |
| Loader.ImportModule | simulation_visualizer/file/parsers/__init__.py:17 | one `import_module` call leaves `sys.modules` and the registry as `Import` describes and raises what it raises |
| Loader.LoadParsers | simulation_visualizer/file/parsers/__init__.py:8-21 | the loop leaves `sys.modules` and the registry as `Load` describes, and the exception it lets escape is the one `Load` names |
| Loader.LoadAppend | simulation_visualizer/file/parsers/__init__.py:12-21 | loading a list is loading its first part and then, unless an exception escaped, the rest from the state that part left |
| Loader.SkippedEntryIgnored | simulation_visualizer/file/parsers/__init__.py:13-14 | `__init__` and files that are not `.py` or `.pyc` change nothing wherever they stand in the listing |
| Loader.ImportErrorContinues | simulation_visualizer/file/parsers/__init__.py:18-21 | a module that raises `ImportError` is skipped; the classes it defined before raising stay registered |
| Loader.OtherErrorAborts | simulation_visualizer/file/parsers/__init__.py:16-21 | any other exception escapes the loader; the later modules are not loaded and the registry keeps what was defined up to the failure |
| Loader.RegistryFollowsEntryOrder | simulation_visualizer/file/parsers/__init__.py:12-17 | when every module completes, nothing escapes and the registry grows by the modules' classes in directory-listing order |
| Loader.ReloadRegistersNothing | simulation_visualizer/file/parsers/__init__.py:16-17 | loading again after a clean load registers nothing new, as long as a failing module defines nothing before it fails |
| Loader.LoadedStaysLoaded | simulation_visualizer/file/parsers/__init__.py:17 | every module that completed is in `sys.modules` afterwards, and nothing already imported is forgotten |
| Loader.ReloadFrom | simulation_visualizer/file/parsers/__init__.py:16-17 | from a state where every completing module is imported, a load leaves the registry and `sys.modules` as they are |
| Loader.FailedModuleRegistersTwice | simulation_visualizer/file/parsers/__init__.py:18-21 | a module that defines a class and then raises `ImportError` registers that class again on every load |
| Loader.LegacyDirectory | simulation_visualizer/parsers/__init__.py:8-21 | for an alphabetical listing of the legacy plugin directory, where the DeePMD deviation module fails to import its base class and the example plugin raises `ImportError`, the registry holds the lcurve, LAMMPS and COLVAR parsers in that order; other listing orders are covered by `RegistryFollowsEntryOrder` |
| Attempts.CanHandleResult | simulation_visualizer/file/extractor.py:264 | the capability check fails with `FileNotFoundError` exactly when the file is missing |
| Attempts.Retried | simulation_visualizer/file/extractor.py:269-283 | the retry loop succeeds exactly when some call succeeds and then keeps the first success; otherwise it keeps the last failure |
| Attempts.GetOne | simulation_visualizer/file/extractor.py:260-285 | `_get_one` makes no extraction call unless the file is accepted, makes at most three, stops at the first success, and sets the session id exactly when the file is accepted |
| Attempts.Retry | simulation_visualizer/file/extractor.py:269-283 | the retry loop makes at least one and at most three calls, every call before the last one made failed, and the result kept is the one `Retried` specifies |
| Attempts.RetriedAt | simulation_visualizer/file/extractor.py:269-281 | the call kept is the one at index `k` when every earlier call failed and this one succeeded or was the last |
| Attempts.JobOutcomes | simulation_visualizer/file/extractor.py:264-285 | a job raises exactly when the capability check raises; a rejected file gives a `CannotHandleException`; an accepted one gives data exactly when some call succeeds, and otherwise the last call's exception |
| Jobs.Product | simulation_visualizer/file/extractor.py:196 | the product has one job per (parser, target) pair, each built from the inputs |
| Jobs.ProductAt | simulation_visualizer/file/extractor.py:196 | the pair `(ps[i], ts[j])` is job `i * len(ts) + j`: parser-major order |
| Jobs.InsertAt | simulation_visualizer/file/extractor.py:199-201 | a job is placed after every job scoring at least as well and before the first scoring worse |
| Jobs.Insert | simulation_visualizer/file/extractor.py:199-201 | inserting into a best-first list keeps it best-first and adds exactly the new job |
| Jobs.Sort | simulation_visualizer/file/extractor.py:199-201 | the jobs are reordered, as a permutation, best filename similarity first |
| Jobs.JobsFromInputs | simulation_visualizer/file/extractor.py:193-201 | there are `len(parsers) * len(targets)` jobs, and each job's parser and target come from the inputs |
| Jobs.AllPairsSubmitted | simulation_visualizer/file/extractor.py:196-209 | every (parser, target) pair is submitted exactly as often as it occurs in the product |
| Jobs.PairSubmitted | simulation_visualizer/file/extractor.py:206-209 | any given (parser, target) pair is among the submitted jobs |
| Dispatch.Position | simulation_visualizer/file/extractor.py:223 | `indexer.index(t)` is the first position holding `t` |
| Dispatch.AddError | simulation_visualizer/file/extractor.py:216-234 | recording an error adds exactly that (target, error) pair to the error sets |
| Dispatch.GetAsyncSpec | simulation_visualizer/file/extractor.py:189-246 | `_get_async` raises only the empty-pool `ValueError` or the `FileNotFoundError` of a capability check |
| Dispatch.GetAsync | simulation_visualizer/file/extractor.py:189-246 | `_get_async` ends as the completion loop over all jobs describes, and each parser's session id is left alone or set to this session's |
| Dispatch.Complete | simulation_visualizer/file/extractor.py:218-235 | the completion loop over the submitted jobs ends as the run of their outcomes, in completion order, from all-empty slots describes |
| Dispatch.Turn | simulation_visualizer/file/extractor.py:219-234 | one future consumed: either the call ends as the rest of the run describes, or the loop goes on with slots and errors that leave the run's end unchanged |
| Dispatch.RunJob | simulation_visualizer/file/extractor.py:221 | a job's outcome is `_get_one` for its parser and target; the parser's session id is unchanged or this session's |
| Dispatch.RunStep | simulation_visualizer/file/extractor.py:219-234 | one turn of the loop: an exception from a job escapes; data fills its target's slot and returns when all are filled; a `CannotHandleException` is ignored; other errors are recorded |
| Dispatch.FilledFromData | simulation_visualizer/file/extractor.py:224-230 | every value returned was delivered by a successful job for that slot |
| Dispatch.UnreachedSlot | simulation_visualizer/file/extractor.py:223-230 | a slot no job maps to stays empty, so the slots are never returned |
| Dispatch.AllTargetsServed | simulation_visualizer/file/extractor.py:219-230 | when no job raises and every empty slot has a successful job, the slots are returned |
| Dispatch.LoggedErrors | simulation_visualizer/file/extractor.py:231-234 | every logged error comes from a failed job for that target, and a `CannotHandleException` is never logged |
| Dispatch.StopsEarly | simulation_visualizer/file/extractor.py:228-230 | once the loop has returned or raised, later futures change nothing |
| Dispatch.LaterSuccessOverwrites | simulation_visualizer/file/extractor.py:224-225 | a second success for a filled slot overwrites the first |
| Dispatch.DuplicateTargetNeverCompletes | simulation_visualizer/file/extractor.py:223 | a (host, path) pair selected twice maps every future to its first position, so the slots are never returned |
| Dispatch.MoreHostsThanPathsNeverComplete | simulation_visualizer/file/extractor.py:193-213 | with fewer paths than hosts, `zip` drops hosts whose slots never fill, so the slots are never returned |
| Dispatch.SlotFromJob | simulation_visualizer/file/extractor.py:221-225 | a value delivered to a slot comes from a successful job whose target is that slot's (host, path) |
| Dispatch.ReturnedValuesFromJobs | simulation_visualizer/file/extractor.py:189-230 | returned values are one per host, in host order, each from a successful job on that host's file |
| Combine.StrLessStrict | simulation_visualizer/file/extractor.py:162 | Python's string `<` is a strict total order |
| Combine.StrLessTrans | simulation_visualizer/file/extractor.py:162 | Python's string `<` is transitive |
| Combine.InsertPos | simulation_visualizer/file/extractor.py:162 | a column goes after every smaller column and before the first one that is not smaller |
| Combine.AddSorted | simulation_visualizer/file/extractor.py:162 | adding a column to an ascending set gives an ascending set of exactly the old columns and the new one |
| Combine.SortedUnique | simulation_visualizer/file/extractor.py:162 | `sorted(list(set(columns)))` is strictly ascending and has exactly the columns' members |
| Combine.SortedSetUnique | simulation_visualizer/file/extractor.py:162 | two strictly ascending lists with the same members are equal |
| Combine.SortedUniqueSameElements | simulation_visualizer/file/extractor.py:162 | the combined columns depend only on which columns occur, not on order or repetition |
| Combine.Concat | simulation_visualizer/file/extractor.py:152-153 | the concatenated columns start with the first header's columns |
| Combine.ParallelHeader | simulation_visualizer/file/extractor.py:148-162 | the loop builds the sorted distinct columns of all files, and the first file's suggestion extended by the shifted y suggestions of the others |
| Combine.ConcatAt | simulation_visualizer/file/extractor.py:152-160 | column `e` of file `i` sits at that file's shift plus `e` in the concatenation |
| Combine.ConcatPrefix | simulation_visualizer/file/extractor.py:153 | the concatenation over a prefix of the files is no longer than over all of them |
| Combine.ParallelSuggestFits | simulation_visualizer/file/extractor.py:152-160 | when every file's suggestion fits its columns, the combined y suggestions address the concatenated columns, and x, z and t are the first file's |
| Combine.ShiftedYFits | simulation_visualizer/file/extractor.py:157-160 | the shifted y suggestions of files 1 onwards address the concatenated columns |
| Combine.ShiftedYNamesSameColumn | simulation_visualizer/file/extractor.py:159-160 | a shifted y suggestion names in the concatenation the column it named in its own file |
| Combine.ParallelSuggestIndexesUnsortedColumns | simulation_visualizer/file/extractor.py:159-162 | the shifted indices address the unsorted concatenation, but the returned column list is sorted, so an index can name a different column |
| Combine.Colored | simulation_visualizer/file/extractor.py:105 | assigning `color` adds the column once, at the end if missing, sets every row's value and keeps the rows |
| Combine.ColoredTwice | simulation_visualizer/file/extractor.py:105 | labelling a frame twice keeps the second label and one `color` column |
| Combine.ColorAll | simulation_visualizer/file/extractor.py:104-105 | each frame is labelled with its own name; frames beyond the shorter of the two lists are left alone |
| Combine.ColorFrames | simulation_visualizer/file/extractor.py:104-105 | the labelling loop labels each frame as `ColorAll` states |
| Combine.MergeRejects | simulation_visualizer/file/extractor.py:96-101 | the column check never rejects |
| Combine.DifferentColumnsNotRejected | simulation_visualizer/file/extractor.py:97-98 | frames with different columns are not all equal, yet they pass the check |
| DiffNames.Proper | simulation_visualizer/file/extractor.py:172 | only the non-empty path components other than `.` are kept, each taken from the input |
| DiffNames.Components | simulation_visualizer/file/extractor.py:172 | the components of a path are non-empty, contain no `/` and are never `.` |
| DiffNames.CommonPrefix | simulation_visualizer/file/extractor.py:172 | the result is the longest common prefix of two component lists |
| DiffNames.CommonAll | simulation_visualizer/file/extractor.py:172 | the result is a prefix of every list, and it cannot be extended |
| DiffNames.CommonPath | simulation_visualizer/file/extractor.py:172 | `commonpath` raises `ValueError` exactly for no paths or for mixed absolute and relative paths, and otherwise keeps the paths' kind |
| DiffNames.DiffNames | simulation_visualizer/file/extractor.py:164-175 | there is one name per path, or the exception `commonpath` raises; what each name is, for one-component directories, is `DiffNamesInDirectories` |
| DiffNames.DiffNameOf | simulation_visualizer/file/extractor.py:173-175 | below an absolute common directory, `x/b` is named `x` |
| DiffNames.DiffNamesInDirectories | simulation_visualizer/file/extractor.py:172-175 | below an absolute common directory `c`, each path `c/d/b` with one-component `d` is named `d`, for the whole list |
| DiffNames.CommonPathOfThree | simulation_visualizer/file/extractor.py:172 | the common path of three absolute paths is their longest common component prefix |
| DiffNames.SameDirectorySameName | simulation_visualizer/file/extractor.py:164-175 | two different files in one directory get the same name, and a file in a sibling directory gets that directory's |
| DiffNames.CommonPathOfTwo | simulation_visualizer/file/extractor.py:172 | the common path of two absolute paths is their longest common component prefix |
| DiffNames.DiffNamesOfTwo | simulation_visualizer/file/extractor.py:172-175 | the names of two paths come from their common path |
| DiffNames.SiblingCommonPath | simulation_visualizer/file/extractor.py:172 | two files in different sibling directories have their parent as common path |
| DiffNames.SiblingDirectories | simulation_visualizer/file/extractor.py:164-175 | same-named files in sibling directories `x` and `y` are named `x` and `y` |
| DiffNames.MixedPaths | simulation_visualizer/file/extractor.py:172 | an absolute and a relative path make the names fail with `ValueError`, in either order |
| Extractor.ExtractSpec | simulation_visualizer/file/extractor.py:69-113 | `extract` passes on an exception from the dispatcher and returns the exhaustion exception; one host gives its frame, or raises `IndexError` when there is none; `merge` raises only the `commonpath` error; a mode other than `merge` or `parallel` gives `None` |
| Extractor.HeaderSpec | simulation_visualizer/file/extractor.py:115-162 | `header` passes on a raised exception and returns the exhaustion exception; one host gives its header; it always gives an answer |
| Extractor.DataExtractor.constructor | simulation_visualizer/file/extractor.py:57-65 | the extractor keeps its parsers, paths, hosts and session id |
| Extractor.DataExtractor.Extract | simulation_visualizer/file/extractor.py:69-113 | `extract` gives what `ExtractSpec` states for the dispatcher's outcome |
| Extractor.DataExtractor.Header | simulation_visualizer/file/extractor.py:115-162 | `header` gives what `HeaderSpec` states for the dispatcher's outcome |
| Extractor.NewDataExtractor | simulation_visualizer/file/extractor.py:57-60 | construction loads the plugins first; an escaping exception aborts it; otherwise the extractor holds the registry's current parsers |
| Extractor.NoParsersRaise | simulation_visualizer/file/extractor.py:203 | with no parser registered, the thread pool raises `ValueError` out of both calls |
| Extractor.SameFileTwiceNoData | simulation_visualizer/file/extractor.py:223-246 | selecting one file twice never yields data: the exhaustion exception, an error from opening a file, or the empty-pool `ValueError` |
| Dispatch.RaisedFromCapability | simulation_visualizer/file/extractor.py:219-221 | an exception raised out of the loop is the `FileNotFoundError` of a capability check |
| Extractor.MergeLabelsSiblingDirectories | simulation_visualizer/file/extractor.py:95-107 | `merge` of two same-named files in sibling directories labels each frame with its directory's name |
| Extractor.MergeTwo | simulation_visualizer/file/extractor.py:103-107 | two frames are stacked, each labelled with its own name |
| Extractor.ColorTwo | simulation_visualizer/file/extractor.py:104-105 | each of two frames gets its own label |
| Extractor.MergeWithNames | simulation_visualizer/file/extractor.py:103-107 | `merge` stacks the frames labelled with the distinct names of their paths |
| Extractor.MergeMixedPathsRaise | simulation_visualizer/file/extractor.py:104-172 | `merge` of an absolute and a relative path raises `commonpath`'s `ValueError` out of `extract` |
| Extractor.HeaderMergeIffEqual | simulation_visualizer/file/extractor.py:143-147 | `merge` answers the first header exactly when all headers are equal, and otherwise returns a `DifferentFileError` naming the paths |
| Extractor.HeaderParallelColumns | simulation_visualizer/file/extractor.py:148-162 | the combined header lists every column of every file once, in ascending order |
| Extractor.ConcatMembers | simulation_visualizer/file/extractor.py:152-153 | the concatenation holds exactly the columns of the files |
| LegacyExtractor.CanHandleResult | simulation_visualizer/parser.py:131-141 | the one-line check raises exactly for a missing file, and otherwise answers from the first line |
| LegacyExtractor.OneSpec | simulation_visualizer/parser.py:224-255 | a job crashes only with its capability check's error; a completed pair holds data exactly when it holds no error, and data only from an accepted file whose retry loop succeeded with it |
| LegacyExtractor.GetOne | simulation_visualizer/parser.py:224-255 | a rejected file gives the pair `(None, Exception)`; an accepted one gets up to five calls and gives the first success or the last error; the session id is set only on acceptance |
| LegacyExtractor.Retry | simulation_visualizer/parser.py:236-255 | the loop stops at the first successful call, at most five calls are made, every earlier call failed, and the pair holds that success or the last error, as `Retried` specifies |
| LegacyExtractor.Collect | simulation_visualizer/parser.py:213-222 | the first completed pair without an error gives its data; when all fail, the last pair's error is returned; an exception from a job escapes |
| LegacyExtractor.OutcomeAt | simulation_visualizer/parser.py:209-213 | the `k`-th job to complete is `_get_one` of parser `order[k]` on this file |
| LegacyExtractor.Outcomes | simulation_visualizer/parser.py:209-213 | one outcome per submitted job; any crash is the `FileNotFoundError` of the file |
| LegacyExtractor.GetAsyncSpec | simulation_visualizer/parser.py:205-222 | `_get_async` raises only the empty-pool `ValueError` or the missing file's `FileNotFoundError` |
| LegacyExtractor.GetAsync | simulation_visualizer/parser.py:205-222 | no parsers raise the empty-pool `ValueError`; otherwise the answer is `Collect` of the outcomes, and the session ids are left alone or set to this session's |
| LegacyExtractor.Job | simulation_visualizer/parser.py:211-212 | a submitted job ends as `_get_one` of its parser; the parser's session id is unchanged or this session's |
| LegacyExtractor.CollectStep | simulation_visualizer/parser.py:213-222 | one turn of the loop after failures: a raising job escapes, a success returns, the last failure returns its error |
| LegacyExtractor.CollectSkips | simulation_visualizer/parser.py:215-218 | completed jobs with errors are passed over |
| LegacyExtractor.DataExtractor.constructor | simulation_visualizer/parser.py:188-196 | the extractor keeps its parsers, path, host and session id |
| LegacyExtractor.DataExtractor.Extract | simulation_visualizer/parser.py:198-203 | `extract` and `header` are `_get_async` with no combination step |
| LegacyExtractor.OneOutcomes | simulation_visualizer/parser.py:231-255 | a job crashes exactly when the capability check raises, is rejected with the class `Exception`, or gives data exactly when one of five calls succeeds |
| LegacyExtractor.NoParserAccepts | simulation_visualizer/parser.py:219-232 | when no parser accepts the first line, the class `Exception` itself is returned, whatever the completion order |
| LegacyExtractor.FirstCompletedSuccessWins | simulation_visualizer/parser.py:215-218 | a parser that succeeds on its first call decides the answer when its job completes first |
| LammpsLog.Scan | simulation_visualizer/file/parsers/lmp_metad_run.py:62-79 | a bounded search ends at a line it hits, or with the exception for the bound or for the end of the file |
| LammpsLog.ScanFinds | simulation_visualizer/file/parsers/lmp_metad_run.py:62-79 | the search finds the first hit within its window; otherwise it raises the bound's exception if the file reaches past the window and the end's exception if not |
| LammpsLog.FindIterSpec | simulation_visualizer/file/parsers/lmp_metad_run.py:56-79 | on success the file is left after a line it has read |
| LammpsLog.FindIter | simulation_visualizer/file/parsers/lmp_metad_run.py:56-79 | `_find_iter` leaves the file where `FindIterSpec` says, or raises the exception it names |
| LammpsLog.Search | simulation_visualizer/file/parsers/lmp_metad_run.py:62-79 | each `for i, line in enumerate(f)` loop ends as the bounded search describes and, on a hit, leaves the file just after the line it hit |
| LammpsLog.ExtractHeader | simulation_visualizer/file/parsers/lmp_metad_run.py:32-39 | the header is read from a missing file's error or from the log's lines as `HeaderSpec` describes |
| LammpsLog.FindIterSucceeds | simulation_visualizer/file/parsers/lmp_metad_run.py:62-75 | success exactly when a `run N` line is among the first 502 lines and a memory-allocation line follows within 102 lines; the file is left just after it |
| LammpsLog.NoRunLine | simulation_visualizer/file/parsers/lmp_metad_run.py:61-68 | without a run line in the first 502 lines, the `TypeError` about the MD run is raised, whether or not the file ends early |
| LammpsLog.RunLineAt501 | simulation_visualizer/file/parsers/lmp_metad_run.py:62-66 | the run line may be the 502nd line, since the match is tested before the bound |
| LammpsLog.NoMemoryLine | simulation_visualizer/file/parsers/lmp_metad_run.py:71-79 | a missing memory-allocation line raises `TypeError` past the window and `ValueError` at the end of the file, for one condition |
| LammpsLog.EarlyMemoryLineIgnored | simulation_visualizer/file/parsers/lmp_metad_run.py:59-60 | a memory line before the run command is not taken; the result depends only on the lines from the run on |
| LammpsLog.HeaderFollowsMemoryLine | simulation_visualizer/file/parsers/lmp_metad_run.py:37-39 | the columns are the tokens of the line right after the memory-allocation line, with the default suggestion |
| LammpsLog.RunTen | simulation_visualizer/file/parsers/lmp_metad_run.py:63 | `run 10` is recognised as a run command |
| LammpsLog.SmallLogFound | simulation_visualizer/file/parsers/lmp_metad_run.py:62-75 | a three-line log reaches its last line |
| LammpsLog.NoBannerNeeded | simulation_visualizer/file/parsers/lmp_metad_run.py:32-39 | `extract_header` never checks the banner: a log without one still yields a header |
| LegacyLammps.First | simulation_visualizer/parsers/lmp_metad_run.py:28-32 | the first line of a kind at or after a position, or the end |
| LegacyLammps.ThermoNames | simulation_visualizer/parsers/lmp_metad_run.py:31 | the names are whitespace-free tokens |
| LegacyLammps.HeaderSpec | simulation_visualizer/parsers/lmp_metad_run.py:15-34 | `ValueError` exactly when the first line is not the LAMMPS banner; otherwise a position within the file |
| LegacyLammps.ExtractHeader | simulation_visualizer/parsers/lmp_metad_run.py:15-34 | the method gives the names and leaves the file where `HeaderSpec` says |
| LegacyLammps.DataSpec | simulation_visualizer/parsers/lmp_metad_run.py:36-52 | on success the rows start within the file |
| LegacyLammps.ExtractData | simulation_visualizer/parsers/lmp_metad_run.py:36-57 | the method gives the names and leaves the file at the first row, as `DataSpec` says |
| LegacyLammps.HeaderOf | simulation_visualizer/parsers/lmp_metad_run.py:15-20 | with no file object, the header is read from the file's start |
| LegacyLammps.DataOf | simulation_visualizer/parsers/lmp_metad_run.py:36-42 | with no file object, the data start is read from the file's start |
| LegacyLammps.BannerIsNotThermo | simulation_visualizer/parsers/lmp_metad_run.py:22-30 | the banner line is never taken for a `thermo_style` line |
| LegacyLammps.FirstThermoUsed | simulation_visualizer/parsers/lmp_metad_run.py:28-32 | only the first `thermo_style custom` line is used, and the file is left just after it |
| LegacyLammps.NoThermoNoData | simulation_visualizer/parsers/lmp_metad_run.py:27-52 | without a `thermo_style` line the header is empty and the data raise `ValueError` naming the path |
| LegacyLammps.DataFound | simulation_visualizer/parsers/lmp_metad_run.py:44-52 | data are found exactly when a memory line follows the thermo line; the rows start two lines after the first such line, or one line after it at the end of the file |
| LegacyLammps.EarlyMemoryLineIgnored | simulation_visualizer/parsers/lmp_metad_run.py:44-49 | a memory line before the `thermo_style` line is not taken |
| LegacyLammps.ThermoRoundTrip | simulation_visualizer/parsers/lmp_metad_run.py:29-31 | writing the command and reading it back gives the names, unless the command word occurs among them |
| LegacyLammps.HeaderRoundTrip | simulation_visualizer/parsers/lmp_metad_run.py:15-34 | a log with the banner and then the command gives the command's names and leaves the file after the command |
| LegacyLammps.DataKeepsHeader | simulation_visualizer/parsers/lmp_metad_run.py:40-42 | whenever data are found, the header was found and the data report its names, with the rows after the header |
| PlumedColvar.FieldNames | simulation_visualizer/file/parsers/plumed_colvar.py:31 | the names are whitespace-free tokens |
| PlumedColvar.ExtractHeader | simulation_visualizer/file/parsers/plumed_colvar.py:22-35 | exactly the files whose first line starts with the marker give names and the default suggestion; the rest raise `ValueError` |
| PlumedColvar.FieldsLineMarker | simulation_visualizer/file/parsers/plumed_colvar.py:14 | a FIELDS line as PLUMED writes it matches the marker up to its first name |
| PlumedColvar.FieldsRoundTrip | simulation_visualizer/file/parsers/plumed_colvar.py:22-35 | writing a FIELDS line and extracting the header gives the names back, whatever follows |
| PlumedColvar.LowerCaseMarker | simulation_visualizer/file/parsers/plumed_colvar.py:14 | `#! fields` matches the marker only when case is ignored |
| PlumedColvar.NoMarkerNoChange | simulation_visualizer/file/parsers/plumed_colvar.py:31 | removal leaves alone a line with no marker occurrence |
| PlumedColvar.LowerCaseMarkerKept | simulation_visualizer/file/parsers/plumed_colvar.py:29-31 | a lower-case marker line is accepted, and the marker is not removed from it |
| PlumedColvar.LowerCaseLineTokens | simulation_visualizer/file/parsers/plumed_colvar.py:29-31 | for `#! fields time d1`, the marker comes back as the two column names `#!` and `fields` |
| PlumedColvar.ScanAcceptsExtractRejects | simulation_visualizer/file/parsers/plumed_colvar.py:26-35 | a file with its FIELDS line second passes `can_handle` but `extract_header` rejects it |
| LegacyPlumed.ExtractHeader | simulation_visualizer/parsers/plumed_colvar.py:13-23 | names after the marker, or `ValueError` exactly when the first line does not start with it |
| LegacyPlumed.AgreesWithNewParser | simulation_visualizer/parsers/plumed_colvar.py:13-23 | the legacy parser accepts the same files as the newer one and gives the same names |
| LegacyPlumed.FieldsRoundTrip | simulation_visualizer/parsers/plumed_colvar.py:13-23 | writing a FIELDS line and extracting it gives the names back |
| LegacyPlumed.FirstLineOnly | simulation_visualizer/parsers/plumed_colvar.py:18 | only the first line is read |
| DeepmdDevi.ExtractHeader | simulation_visualizer/parsers/dpmd_devi.py:15-25 | tokens after removing `#` and its spaces, or `ValueError` exactly when the first line does not start with the pattern |
| DeepmdDevi.DeviNames | simulation_visualizer/parsers/dpmd_devi.py:10-13 | the seven column names the pattern requires |
| DeepmdDevi.DeviLineDetected | simulation_visualizer/parsers/dpmd_devi.py:10-13 | the header line as DeePMD-kit writes it matches, whatever extra columns follow |
| DeepmdDevi.DeviRoundTrip | simulation_visualizer/parsers/dpmd_devi.py:15-25 | the header line is accepted, and extraction gives the seven names followed by any extra columns |
| DeepmdDevi.FirstLineOnly | simulation_visualizer/parsers/dpmd_devi.py:20 | only the first line is read |
| DeepmdLcurve.ExtractHeader | simulation_visualizer/parsers/dpmd_lcurve.py:16-26 | raw whitespace tokens of the first line, or `ValueError` exactly when it does not start with the pattern |
| DeepmdLcurve.Accepted | simulation_visualizer/parsers/dpmd_lcurve.py:23-24 | an accepted line is split on whitespace, whatever follows it |
| DeepmdLcurve.HashKeptAsToken | simulation_visualizer/parsers/dpmd_lcurve.py:24 | an accepted line starts with `#`, and with a space after it `#` is the first column name |
| DeepmdLcurve.DoubleSpacedMatches | simulation_visualizer/parsers/dpmd_lcurve.py:11-14 | a header written with the pattern's own spacing is accepted |
| DeepmdLcurve.DoubleSpacedSplit | simulation_visualizer/parsers/dpmd_lcurve.py:24 | such a header splits into the names on either side of the double space |
| DeepmdLcurve.SingleSpacedMismatch | simulation_visualizer/parsers/dpmd_lcurve.py:13 | with one space where the pattern has two, the match fails |
| DeepmdLcurve.LcurveRoundTrip | simulation_visualizer/parsers/dpmd_lcurve.py:16-26 | the header DeePMD-kit writes is accepted and gives eleven tokens, `#` first |
| DeepmdLcurve.SingleSpacedRejected | simulation_visualizer/parsers/dpmd_lcurve.py:11-26 | the same names separated only by single spaces are rejected with `ValueError` |
| DeepmdLcurve.FirstLineOnly | simulation_visualizer/parsers/dpmd_lcurve.py:21 | only the first line is read |
| Utils.Runs | simulation_visualizer/utils.py:32 | the groups `groupby` yields: at most one per element, and at least one when there are elements |
| Utils.AllEqual | simulation_visualizer/utils.py:125-127 | zero or one element are all equal; when the result is true the last two elements agree |
| Utils.AllEqualMeans | simulation_visualizer/utils.py:125-127 | `all_equal` holds exactly when every two elements are equal, including for no elements |
| Utils.AuthEntry | simulation_visualizer/utils.py:95 | a line without `:` raises `IndexError`; otherwise the user is the text before the first `:` and the password runs up to the next one |
| Utils.FirstField | simulation_visualizer/utils.py:95 | the first field of a split runs up to the first separator |
| Utils.GetAuth | simulation_visualizer/utils.py:93-95 | the users file fails exactly when some line has no `:` |
| Utils.AuthLastWins | simulation_visualizer/utils.py:95 | a user named on several lines gets the password from the last of them |
| Utils.AuthUsersFromLines | simulation_visualizer/utils.py:95 | every user in the map is named by some line |
| Utils.CloseBrace | simulation_visualizer/utils.py:153-157 | the value always ends in `}`; a trailing `,` becomes `}`; a value already ending in `}` is kept |
| Utils.CloseBraceIdempotent | simulation_visualizer/utils.py:153-157 | normalising twice is normalising once |
| Utils.QstatColNames | simulation_visualizer/utils.py:173-178 | the column names are the keys without `user_assigned_id`, in order; the others are kept |
| Utils.Zip | simulation_visualizer/utils.py:32 | `zip` pairs elements by position, as many pairs as the shorter list has |
| Utils.SizeOf | simulation_visualizer/utils.py:29-38 | the summation fails exactly when some file is missing |
| Utils.GetFileSize | simulation_visualizer/utils.py:29-38 | the total is the sum of the sizes, or the first missing file's error; one connection is opened per run of equal hosts |
| Utils.SumGroup | simulation_visualizer/utils.py:34-36 | a group covers consecutive pairs on one host and stops where the host changes |
| Utils.RunsOfGroup | simulation_visualizer/utils.py:32 | a group of equal hosts after a host change adds one connection |
| Utils.SizeOfStopsAtMissing | simulation_visualizer/utils.py:36 | the first missing file ends the summation |
| Url.FirstPart | simulation_visualizer/visualize/url.py:40-43 | the query starts with `?`, and it carries `x` exactly when the selection is truthy |
| Url.SearchParts | simulation_visualizer/visualize/url.py:40-50 | the parts are the x part, one per y, z and t value, and `dim=` last |
| Url.UpdateUrlSelect | simulation_visualizer/visualize/url.py:32-53 | the query string the callback writes, built by the if/extend steps |
| Url.SearchShape | simulation_visualizer/visualize/url.py:40-51 | the query starts with the x part and `&`, and ends with `&dim=` and the dimension |
| Url.ValueEnd | simulation_visualizer/visualize/url.py:111 | a value runs up to the first `&` or whitespace |
| Url.ParamValues | simulation_visualizer/visualize/url.py:111-136 | the values `findall` returns contain no `&` and no whitespace |
| Url.NoEqualsNoValues | simulation_visualizer/visualize/url.py:111 | a query without `=` has no values |
| Url.PartValues | simulation_visualizer/visualize/url.py:111 | one `name=value` part gives its value exactly when the name ends with the key |
| Url.PartThenRest | simulation_visualizer/visualize/url.py:111 | `findall` over parts joined by `&` is the concatenation of its results over each part |
| Url.SearchValues | simulation_visualizer/visualize/url.py:131-136 | for any key, the values found in a written query are those of the parts whose names end with the key |
| Url.KeysApart | simulation_visualizer/visualize/url.py:131-136 | among `?x`, `y`, `z`, `t` and `dim`, each key matches exactly its own part name |
| Url.KeyValues | simulation_visualizer/visualize/url.py:131-136 | reading the written query gives back x (when truthy), the y, z and t values and the dimension |
| Url.Prefixed | simulation_visualizer/visualize/url.py:78-81 | behind the proxy a path gets the subdirectory prefix once; otherwise it is unchanged |
| Url.UpdateUlr | simulation_visualizer/visualize/url.py:67-88 | the path is the prefixed paths joined by `|`, and the hash is `#` and the hosts joined by `|` |
| Url.PrefixedIdempotent | simulation_visualizer/visualize/url.py:78-81 | prefixing twice is prefixing once |
| Url.ParseUrl | simulation_visualizer/visualize/url.py:93-162 | no match raises `PreventUpdate`; otherwise there is at least one host and one filename, no host holds `|`, and a selection is kept only when it is complete for its dimension |
| Url.DimDefaultsTo2D | simulation_visualizer/visualize/url.py:135-139 | a query without `dim` defaults to 2D and keeps an x and y selection |
| Url.SearchRoundTrip | simulation_visualizer/visualize/url.py:32-157 | reading back a written query gives the selection exactly when it is complete for its dimension |
| Url.PathRoundTrip | simulation_visualizer/visualize/url.py:67-161 | reading back the written path and hash gives the hosts and the prefixed filenames |
| Url.AddressRoundTrip | simulation_visualizer/visualize/url.py:32-162 | the whole address written by both callbacks reads back to the hosts, the prefixed filenames and the selection when complete |
| PathInput.Decimal | simulation_visualizer/visualize/path_input.py:105 | a click count formats as a non-empty string of digits |
| PathInput.Selector | simulation_visualizer/visualize/path_input.py:67-106 | a new selector is a component object, not yet a dictionary, whose id contains `path-selector` |
| PathInput.Ids | simulation_visualizer/visualize/path_input.py:133-137 | there are at most as many ids as elements |
| PathInput.Count | simulation_visualizer/visualize/path_input.py:140 | at most one selector is counted per id |
| PathInput.GetNSelectors | simulation_visualizer/visualize/path_input.py:130-143 | the ids of the elements that have props with an id, in order, and how many of them name a selector |
| PathInput.Inserted | simulation_visualizer/visualize/path_input.py:108 | inserting at position 1 adds exactly one element |
| PathInput.Deleted | simulation_visualizer/visualize/path_input.py:121 | deleting removes exactly one element |
| PathInput.Removed | simulation_visualizer/visualize/path_input.py:112-127 | removal deletes at most one element, and only when more than one selector is counted |
| PathInput.FirstTagged | simulation_visualizer/visualize/path_input.py:119-123 | the index of the first selector id, which exists whenever one is counted |
| PathInput.ControlTab.constructor | simulation_visualizer/visualize/path_input.py:42 | the tab starts with the given children |
| PathInput.ControlTab.AddHost | simulation_visualizer/visualize/path_input.py:67-109 | a new selector is inserted at position 1, or appended to an empty tab |
| PathInput.ControlTab.RemoveHost | simulation_visualizer/visualize/path_input.py:112-127 | with more than one selector, the element at the first selector id's index in the id list is deleted; otherwise nothing changes |
| PathInput.ControlTab.ChangeHost | simulation_visualizer/visualize/path_input.py:45-64 | add or remove by the trigger; the merge control is visible exactly when the new count plus the shift exceeds 1, and otherwise merge is set to `parallel`; after an add, that is exactly when the submitted tab already held a selector |
| PathInput.InsertedKeepsOthers | simulation_visualizer/visualize/path_input.py:108 | the inserted element sits at position 1, or 0 in an empty tab, and deleting it restores the tab |
| PathInput.InsertedCount | simulation_visualizer/visualize/path_input.py:105-108 | once Dash has sent the tab back as dictionaries, the added selector raises the count by one |
| PathInput.AddedNotCounted | simulation_visualizer/visualize/path_input.py:130-137 | the selector just inserted is an `html.Div` object, for which `"props" in element` is false, so the count taken in the same call does not see it |
| PathInput.AddShowsMergeIffSelector | simulation_visualizer/visualize/path_input.py:48-62 | after an add, the merge control is shown exactly when the submitted tab already held a selector: the +1 stands for the uncounted new one |
| PathInput.RemovedAtMostOne | simulation_visualizer/visualize/path_input.py:118-125 | removal deletes at most one element, and none when one selector or fewer is counted |
| PathInput.DeletedCount | simulation_visualizer/visualize/path_input.py:121 | deleting an element that carries a selector id lowers the count by one |
| PathInput.RemovedIdentified | simulation_visualizer/visualize/path_input.py:118-123 | when every element has an id, a selector is deleted and the count drops by one |
| PathInput.RemoveHitsWrongElement | simulation_visualizer/visualize/path_input.py:119-121 | with an element without id first, removal deletes the wrong element and the count stays 2 |
| PathInput.RemoveFromThreeHidesMerge | simulation_visualizer/visualize/path_input.py:52-62 | removing one of three selectors hides the merge control, although two remain |
| PathInput.UpdateOutput | simulation_visualizer/visualize/path_input.py:154-159 | `IndexError` exactly when at most one host is selected and a list is empty; one host gives its `host@path`; several give the plural prefix |
| PathInput.OutputListsPairs | simulation_visualizer/visualize/path_input.py:157-159 | splitting the listing on `,` and `@` gives back the zipped host and path pairs |
| Text.Split | simulation_visualizer/file/parsers/lmp_metad_run.py:39 | `str.split()` gives non-empty whitespace-free tokens |
| Text.SplitOn | simulation_visualizer/utils.py:95 | `str.split(c)` always gives at least one field, and no field holds the separator |
| Text.Basename | simulation_visualizer/file/extractor.py:175 | the base name holds no `/` |
| Files.FileHandle.ReadLine | simulation_visualizer/file/parser_meta.py:146 | `readline` gives the line at the position and moves past it, or `""` at the end without moving |
| Files.FileHandle.Next | simulation_visualizer/parsers/lmp_metad_run.py:28 | one step of `for line in f`: the line at the position and a move past it, or the end of the loop when no line is left |
| Files.FileHandle.Rewind | simulation_visualizer/parsers/lmp_metad_run.py:23 | `seek(0)` returns to the first line and keeps the lines |
| Text.SplitJoin | simulation_visualizer/file/parsers/plumed_colvar.py:31 | splitting tokens joined by single spaces and followed by whitespace gives the tokens back |
| Text.SplitOnJoin | simulation_visualizer/visualize/url.py:160-161 | splitting on `c` inverts joining with `c` when no field holds `c` |
| Text.RemoveAllAbsent | simulation_visualizer/file/extractor.py:174 | `replace(p, "")` leaves a string without `p` unchanged |
| Patterns.WordsMatch | simulation_visualizer/file/parsers/plumed_colvar.py:14 | a match of a words pattern ends within the string, and not before the end of its first literal |
| Patterns.SensitiveImpliesInsensitive | simulation_visualizer/file/parsers/plumed_colvar.py:14 | with `re.I`, a match of the case-sensitive pattern is still a match, and it ends at the same place |
| Patterns.SubWords | simulation_visualizer/parsers/dpmd_devi.py:23 | removing every match never lengthens the text |
| Patterns.RunLine | simulation_visualizer/file/parsers/lmp_metad_run.py:63 | a `run N` line has at least five characters and a digit after the keyword and its space |
| Patterns.Banner | simulation_visualizer/file/parsers/lmp_metad_run.py:20 | a banner line has at least eight characters and a `)` after `LAMMPS(` |

## Left out

- Concurrency: the thread pool is modelled as sequential runs in an arbitrary completion order. Timing, `executor.shutdown(wait=False)` and the race on the class-level session id between users are not modelled. The session-id frame only says each id is either unchanged or this session's.
- Jobs.Sort: `rapidfuzz.fuzz.ratio` is an abstract score function. The model sorts by insertion; Python's sort is stable as well, and both produce a best-first permutation, but the two tie orders are not proved equal.
- Frames are values made of columns and rows. `pd.concat` in both modes, the `parallel` reindex and `groupby(...).max()` become the `Stacked` and `Joined` constructors without computing the combined table. `d["color"] = n` changes a frame in place in the source; the model returns the labelled frames.
- The regular expression `URL_FIND` of `parse_url` is taken as its three groups (or no match). Only `PARAM_FIND` is modelled, character by character. Percent-encoding of the address is not applied.
- `sizeof_fmt`, `timeit`, `input_parser`, `get_root`/`set_root`, `get_python`, `Context`/`callback_info` and logging are not part of this model: they format, time or log, and do not decide any result.
- `FileParser.get_n_lines` is not part of this model: its body is unfinished and returns nothing.
- `json.loads` of the qstat values and the `ConfigParser` reading are not modelled: only the value normalisation of `_getdict` and the removal of `user_assigned_id` are modelled.
- `re.I` case folding is modelled for ASCII letters only, and `\d` for ASCII digits.
- Remote I/O (SSH connections, `stat`, copies to a temporary directory) is a map from (host, path) to lines or sizes. The copying branch of `_file_opener` yields the same lines as the direct open.
- Each extraction call's outcome (`extract_data`/`extract_header` returning or raising) is supplied per call, since it depends on remote I/O and pandas.
- `extract_data` of the newer parsers (`np.genfromtxt`, `pd.read_table`) is not modelled. The legacy LAMMPS `extract_data` is modelled up to where the numeric rows start.
- `df_sugg.copy()` in `header(mode="parallel")` is shallow, so extending `suggest["y"]` also extends the first file's own list. Combine.ParallelHeader works on values and does not capture this aliasing.
- `self.parsers` of both extractors is the registry's own list, not a copy. The model takes a snapshot at construction.
- Extractor.ExtractSpec: the `DifferentFileError` rejection of `merge` is unreachable. Its message (the repr of an exhausted generator) is kept as a fixed prefix only.
- Extractor.ExtractSpec and Extractor.HeaderSpec: any mode string other than `merge` and `parallel` is the single value `OtherMode`.
- The two-group branch of `parse_url` (`len(data) != 3`) is unreachable, because the pattern always has three groups, so it is not modelled.
- `example_plugin.py` is not part of this model. The loader lemmas cover it as a module that raises `ImportError` before defining a class.
- `suggest_path` and the path-completion IPC of `path_completition.py`, the Dash layout and the figure and cache modules are not part of this model.
- DiffNames.DiffNamesInDirectories: names are characterised only for directories of one component. `str.replace` removes every occurrence of the common path, so a deeper directory can lose parts of itself.
- `None` where the callbacks receive lists (no selection) is modelled as an empty list. `n_clicks` is `Option<nat>`; `None` prints as `None` in the selector id.
- Extractor.PyListRepr renders `str(paths)` with single quotes always. Python switches to double quotes for a path that contains a single quote.
