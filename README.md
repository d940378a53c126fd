# Ambient Prompt and concat_files, in Dafny

This project models the core of the Ambient Prompt web application and of
the helper script `concat_files.py` that ships with it, and proves what
each part promises.

The web application:

- **The generation endpoint** `GET /api/initial-prompt?concept=...`
  (module `Route`). A missing or empty `concept` gets a 400 answer. Any
  other concept gets a 200 answer whose prompt is one of four fixed
  templates with the concept substituted in. An exception inside the
  handler gets a 500 answer.
- **The client request** `generatePrompt` (modules `Api` and
  `UriComponent`). It covers:
  - the percent-encoded request URL, with UTF-8 encoding of the concept;
  - the 10-second abort timer, which is cleared once `fetch` settles;
  - how a settled `fetch` becomes either the prompt or a thrown error.
- **The prompt store** over `localStorage` (module `PromptStorage`). Its
  three helpers act on the single key `"currentPrompt"` and swallow any
  error the storage backend throws.
- **The home page** (module `HomePage`). It covers:
  - the React state `prompt` and `isLoading`;
  - the mount effect that restores the stored prompt;
  - the submit handler, which writes the prompt through to storage;
  - the clear handler;
  - the choice between showing the form and showing the prompt card.
- **The seed form** (module `PromptForm`). It covers:
  - the `seedConcept` text and the example buttons;
  - the `trim()` guard on submit and retry, with the exact whitespace set
    of ECMA-262;
  - the rule for disabling the submit button.

The script `concat_files.py`:

- **The search** (module `ConcatSearch`). It covers:
  - extension normalisation;
  - the recursive directory search, bounded by `--levels`, over a folder
    tree;
  - Python's `Path.suffix` and `str.lower`;
  - the sort in pathlib's path order.
- **The output** (module `ConcatOutput`). It covers:
  - removing the output file from the matches;
  - the read loop;
  - the writer loop that lays out each record as its path, the first
    separator, the content and the second separator;
  - the count of successful reads;
  - the overall result of `concat_files`.
- **The command line** (module `ConcatMain`). It covers the argument
  checks in the order `main` makes them, the default output file name,
  and the exit status.

Some parts of the source change state step by step, and these are
modelled as classes whose fields the methods update:

- the abort timer;
- the storage object;
- the page;
- the form;
- the search's `matching_files` list.

Loops become methods with loop invariants, and each loop's result is
proved equal to a pure function of its inputs. Pure logic becomes
functions and lemmas.

Side effects beyond the model's reach become parameters:

- `Math.random()` is a real number in [0, 1);
- the outcome of `fetch`, or the timer winning the race;
- whether the storage backend throws;
- whether a `setItem` call throws;
- whether the page's own `removeItem` call throws;
- the file reader;
- whether writing the output file fails;
- today's date.

## Model

| member | source | states |
|---|---|---|
| Route.Templates | src/app/api/initial-prompt/route.ts:54-59 | There are exactly four templates for any concept. |
| Route.RandomIndex | src/app/api/initial-prompt/route.ts:62 | `Math.floor(Math.random() * templates.length)` always indexes one of the four templates. |
| Route.EveryTemplateSelectable | src/app/api/initial-prompt/route.ts:54-63 | `Math.random() = i / 4` selects template `i`, so generation returns template `i` of the concept, and every template is produced for some random value. |
| Route.GenerateCreativePrompt | src/app/api/initial-prompt/route.ts:52-64 | The generated prompt is one of the templates for the concept, contains the concept, and is longer than it. |
| Route.ExtractSeedOfTemplate | src/app/api/initial-prompt/route.ts:54-59 | Extracting the concept from template `i` of a concept gives back that concept. |
| Route.TemplateOfExtractedSeed | src/app/api/initial-prompt/route.ts:54-59 | Any prompt from which a concept can be extracted is template `i` of that concept. |
| Route.TemplatesAreDistinguishable | src/app/api/initial-prompt/route.ts:54-59 | Equal prompts come from the same template and the same concept, so a prompt determines both. |
| Route.Get | src/app/api/initial-prompt/route.ts:10-42 | The status is always 200, 400 or 500. 400 is returned exactly when the URL parsed and the concept is null or empty, and carries the missing-parameter error. 500 is returned exactly when an exception was raised (generation faults only count once the check has passed), and carries the generation error. 200 is returned exactly when nothing faults and the concept is present; its prompt is a template of the concept and contains it. |
| Route.WhitespaceConceptAccepted | src/app/api/initial-prompt/route.ts:19 | A concept made only of whitespace passes the endpoint's check, which tests falsiness only. |
| Common.NatToString | src/lib/api.ts:40 | The decimal text of a status code is non-empty, all digits, and has no leading zero. |
| Common.ParseNatToString | src/lib/api.ts:40 | Reading back the decimal text of a number gives the number. |
| UriComponent.Utf8Char | src/lib/api.ts:15 | A code point encodes to 1 to 4 bytes, and to a single byte equal to it exactly when it is ASCII. |
| UriComponent.Utf8RoundTrip | src/lib/api.ts:15 | UTF-8 decoding inverts the UTF-8 encoding of any string. |
| UriComponent.EncodeURIComponent | src/lib/api.ts:15 | The encoding uses only unreserved characters and `%`, and is never shorter than the input. |
| UriComponent.PercentDecodeEncode | src/lib/api.ts:15 | Percent-decoding the encoded concept gives exactly its UTF-8 bytes. |
| UriComponent.EncodeRoundTrip | src/lib/api.ts:15 | Decoding the encoded concept gives back the concept. |
| UriComponent.EncodeEmptyIff | src/lib/api.ts:15 | The encoding is empty exactly when the concept is. |
| Api.RequestUrl | src/lib/api.ts:22 | The request URL is the endpoint's query prefix followed by the encoded concept. |
| Api.ErrorMessage | src/lib/api.ts:36-44 | The message for a non-ok response is never empty. A parsed body with a truthy `error` gives exactly that `error`. A parsed body without one gives the status-only message. A body that does not parse, or parses to `null`, gives the message with the status text. |
| Api.StatusMessageLayout | src/lib/api.ts:40 | The status-only message is the fixed prefix followed by the status code, with nothing after it. |
| Api.StatusTextMessageLayout | src/lib/api.ts:43 | The status-text message extends the status-only one and ends with `: ` and the status text, or with `: Unknown error` when the status text is empty. |
| Api.Caught | src/lib/api.ts:55-66 | An `AbortError` becomes the timeout error and any other error is rethrown unchanged, so no `AbortError` ever escapes. |
| Api.Classify | src/lib/api.ts:12-67 | The request resolves exactly when `fetch` fulfilled with an ok status and a non-null JSON body, and it resolves to that body's `prompt`. A non-ok status throws the parsed or synthesized message. An ok status whose body does not parse throws the parse error, and an ok status with a `null` body throws the `TypeError` of reading `.prompt`. A rejection throws the timeout error for an abort and the reason itself otherwise. The error thrown is never an `AbortError`. |
| Api.ServerErrorPassedThrough | src/lib/api.ts:40 | A non-ok response whose body has a non-empty `error` throws exactly that message. |
| Api.StatusMessageReportsStatus | src/lib/api.ts:40 | The status-only fallback message reports the response's status code. |
| Api.StatusTextMessageReportsStatus | src/lib/api.ts:43 | The message used when the body cannot be parsed reports the status code, whatever the status text. |
| Api.SynthesizedMessageReportsStatus | src/lib/api.ts:36-47 | Any non-ok response without a truthy `error` throws a message that reports its status code. |
| Api.AbortTimer.Start | src/lib/api.ts:18-19 | A new controller is not aborted, and its timeout is pending with the given delay. |
| Api.AbortTimer.Elapse | src/lib/api.ts:19 | The pending timeout firing aborts the controller. |
| Api.AbortTimer.Clear | src/lib/api.ts:28-31 | `clearTimeout` leaves nothing pending and does not change whether the controller was aborted. |
| Api.GeneratePrompt | src/lib/api.ts:12-67 | The timer is armed for 10000 ms and always cleared. It aborted exactly when the timeout won the race, and then the request throws the timeout error. Otherwise the result is the classification of the fetch outcome. |
| Api.ServerConcept | src/app/api/initial-prompt/route.ts:13-16 | The server finds a concept only in a URL that starts with the endpoint's query prefix, and finds the empty string for a bare `?concept=`. |
| Api.ConceptReachesServer | src/lib/api.ts:15-22 | The server's `searchParams.get('concept')` of the built URL is the client's concept, unchanged. |
| Api.EndToEnd | src/lib/api.ts:12-67 | Client and endpoint together: the request resolves exactly when the handler does not fault and the concept is non-empty, and then to one of that concept's templates. An empty concept throws the missing-parameter error. A URL fault, or a generation fault on a non-empty concept, throws the generation error. |
| PromptStorage.Saved | src/lib/localStorage.ts:1-7 | A save binds `"currentPrompt"` to the prompt unless the backend throws, in which case nothing changes. No other key ever changes. |
| PromptStorage.Loaded | src/lib/localStorage.ts:9-16 | A read gives a value exactly when the backend does not throw and the key is present, and that value is the stored one. Otherwise it gives `null`. |
| PromptStorage.Cleared | src/lib/localStorage.ts:18-24 | A clear removes `"currentPrompt"` unless the backend throws, in which case nothing changes. No other key ever changes. |
| PromptStorage.Store.SavePrompt | src/lib/localStorage.ts:1-7 | The store object's new contents are `Saved` of its old contents. |
| PromptStorage.Store.GetPrompt | src/lib/localStorage.ts:9-16 | The store object answers as `Loaded` does and changes nothing. |
| PromptStorage.Store.ClearPrompt | src/lib/localStorage.ts:18-24 | The store object's new contents are `Cleared` of its old contents. |
| PromptStorage.SaveThenGet | src/lib/localStorage.ts:1-16 | A successful save is read back. |
| PromptStorage.ClearThenGet | src/lib/localStorage.ts:9-24 | After a successful clear, every read gives `null`. |
| PromptStorage.ClearIdempotent | src/lib/localStorage.ts:18-24 | Clearing twice is clearing once, and clearing an empty slot changes nothing. |
| PromptStorage.SaveOverwrites | src/lib/localStorage.ts:1-7 | A later successful save replaces any earlier one. |
| PromptStorage.FailedSaveKeepsOld | src/lib/localStorage.ts:1-16 | A save whose backend throws leaves the previous value readable. |
| PromptStorage.OtherKeysUntouched | src/lib/localStorage.ts:1-24 | Saving and clearing never touch another key. |
| PromptStorage.SaveThenGetOnStore | src/lib/localStorage.ts:1-16 | On one store object, a save followed by a get returns the saved prompt and leaves the store as saved. |
| HomePage.PlaceholderPrompt | src/app/page.tsx:29-30 | The placeholder prompt is non-empty and holds the seed right after its fixed opening. |
| HomePage.Render | src/app/page.tsx:62-74 | The form, with the loading flag, is shown exactly when `prompt` is empty. Otherwise the card shows the prompt. |
| HomePage.MountLoads | src/app/page.tsx:13-18 | Mounting shows the stored prompt exactly when it is a non-empty string, and changes nothing else. |
| HomePage.SubmitCycle | src/app/page.tsx:20-42 | During a submit the loading flag is set. Afterwards it is cleared, the card shows a prompt containing the seed, and storage holds that prompt unless `setItem` threw, in which case storage is unchanged. |
| HomePage.Next | src/app/page.tsx:13-47 | No event changes a key other than `"currentPrompt"`. A mount keeps the loading flag and storage, and shows either the old prompt or the stored one. Starting a submit sets the loading flag and keeps the prompt and storage. Completing a submit clears the loading flag and shows a non-empty prompt containing the seed. A clear empties the prompt and keeps the loading flag. |
| HomePage.ClearResets | src/app/page.tsx:44-47 | A clear empties the prompt, keeps the loading flag and every other key, and shows the form. The stored key is removed when `removeItem` does not throw. When it throws, the prompt is still emptied and storage is unchanged. |
| HomePage.InitialSynced | src/app/page.tsx:9-10 | The first render is consistent with any storage. |
| HomePage.NextKeepsSynced | src/app/page.tsx:13-47 | Each event except a submit whose `setItem` throws keeps the shown prompt equal to the stored one. A clear keeps it even when `removeItem` throws, since the prompt it shows is empty. |
| HomePage.RunKeepsSynced | src/app/page.tsx:13-47 | Over any run of events in which no `setItem` throws, the shown prompt is always the stored one. |
| HomePage.StorageWriteFailureDesyncs | src/app/page.tsx:32-35 | `setPrompt` runs before `setItem`, so a throwing `setItem` leaves a shown prompt that storage does not hold. |
| HomePage.FailedClearReturnsOnReload | src/app/page.tsx:13-47 | When `removeItem` throws during a clear, a fresh page on the same storage shows the old stored prompt again. |
| HomePage.ReloadRestores | src/app/page.tsx:13-35 | After a successful submit, a fresh page on the same storage mounts showing the same prompt. |
| HomePage.Home.constructor | src/app/page.tsx:9-10 | The page starts with an empty prompt and no loading flag. |
| HomePage.Home.Mount | src/app/page.tsx:13-18 | The page object's new state is `Next` of its old state for the mount event. |
| HomePage.Home.BeginSubmit | src/app/page.tsx:21 | The page object's new state is `Next` of its old state for the start of a submit. |
| HomePage.Home.CompleteSubmit | src/app/page.tsx:29-41 | The page object's new state is `Next` of its old state for the end of a submit. |
| HomePage.Home.Clear | src/app/page.tsx:44-47 | The page object's new state is `Next` of its old state for a clear: `setPrompt('')` runs first, and the key is removed only when `removeItem` does not throw. |
| PromptForm.TrimStart | src/components/PromptForm.tsx:33 | The result is a suffix of the text that does not start with whitespace. |
| PromptForm.TrimEnd | src/components/PromptForm.tsx:33 | The result is a prefix of the text that does not end with whitespace. |
| PromptForm.TrimStartDropsWhitespace | src/components/PromptForm.tsx:33 | Everything stripped from the front is whitespace. |
| PromptForm.TrimEndDropsWhitespace | src/components/PromptForm.tsx:33 | Everything stripped from the back is whitespace. |
| PromptForm.TrimEnds | src/components/PromptForm.tsx:33 | The trimmed text neither starts nor ends with whitespace. |
| PromptForm.TrimIdempotent | src/components/PromptForm.tsx:33 | Trimming twice is trimming once. |
| PromptForm.HasContentIff | src/components/PromptForm.tsx:33 | `seedConcept.trim()` is truthy exactly when the text is not all whitespace. |
| PromptForm.NonBlankStartHasContent | src/components/PromptForm.tsx:33 | A text whose first character is not whitespace passes the guard. |
| PromptForm.ExamplesHaveContent | src/components/PromptForm.tsx:24-29 | Every example passes the guard. |
| PromptForm.SubmitDisabled | src/components/PromptForm.tsx:117 | The submit button is enabled exactly when the form is not loading and the text is not all whitespace. |
| PromptForm.Form.constructor | src/components/PromptForm.tsx:21 | The text starts empty. |
| PromptForm.Form.Change | src/components/PromptForm.tsx:69 | Typing sets the text to the typed value, untrimmed. |
| PromptForm.Form.ClickExample | src/components/PromptForm.tsx:38-40 | Clicking an example sets the text to that example. |
| PromptForm.Form.Submit | src/components/PromptForm.tsx:31-36 | `onSubmit` is called exactly when the text is not all whitespace, and with the untrimmed text. |
| PromptForm.Form.Retry | src/components/PromptForm.tsx:44-50 | Retry calls `onSubmit` exactly when an error is shown and the text is not all whitespace, whatever the loading flag says, and with the untrimmed text. |
| ConcatSearch.LowerChar | concat_files.py:42 | An ASCII capital becomes its own lower-case letter, no result is an ASCII capital, and any other character is unchanged. |
| ConcatSearch.Lower | concat_files.py:42 | Lowering keeps the length and maps each character. |
| ConcatSearch.LowerIdempotent | concat_files.py:42 | Lowered text is lower case, and lowering it again changes nothing. |
| ConcatSearch.NormalizeExtension | concat_files.py:40-42 | A normalised extension is non-empty, starts with a dot and is lower case. An extension that already starts with a dot keeps its length, and any other gains exactly the one leading dot. |
| ConcatSearch.NormalizeExtensionContents | concat_files.py:40-42 | A normalised extension ends with the lowered input. It is exactly the lowered input when that starts with a dot, and a dot followed by the lowered input otherwise. |
| ConcatSearch.NormalizeExamples | concat_files.py:33-36 | `txt`, `.py` and `MD` normalise to `.txt`, `.py` and `.md`. |
| ConcatSearch.NormalizeExtensionProperties | concat_files.py:40-42 | A normalised extension starts with a dot, is lower case, and normalises to itself. |
| ConcatSearch.NormalizeOne | concat_files.py:40-42 | One loop iteration produces exactly the normalised extension. |
| ConcatSearch.NormalizeExtensions | concat_files.py:28-43 | The loop returns one normalised extension per input, in order, each starting with a dot and lower case. |
| ConcatSearch.NormalizeTwice | concat_files.py:28-43 | Normalising an already normalised list returns it unchanged. |
| ConcatSearch.LastDot | concat_files.py:65 | The position found holds the last dot of the name, or there is no dot. |
| ConcatSearch.Suffix | concat_files.py:65 | `Path.suffix` is empty or a tail of the name of at least two characters that starts with a dot and holds no other dot. It is non-empty exactly when the last dot of the name is neither its first nor its last character. |
| ConcatSearch.DotFileHasNoSuffix | concat_files.py:65 | A name whose only dot is its first character has no suffix. |
| ConcatSearch.NameMatches | concat_files.py:65 | When every extension is non-empty, a file matches only if its name has a suffix. |
| ConcatSearch.SuffixOfLower | concat_files.py:65 | The suffix of the lowered name is the lowered suffix, so `item.suffix.lower()` is the suffix of the lowered name. |
| ConcatSearch.NameMatchesIgnoresCase | concat_files.py:65 | Whether a file matches does not depend on the case of its name. |
| ConcatSearch.EntryMatchesIff | concat_files.py:63-68 | A path is collected from an entry exactly when it names a matching file reachable from that entry within the level bound. |
| ConcatSearch.MatchesIff | concat_files.py:60-72 | A path is collected from a directory listing exactly when it names a matching file reachable within the level bound through listable directories. |
| ConcatSearch.StrLessAsymmetric | concat_files.py:81 | The order on path components is asymmetric. |
| ConcatSearch.StrLessTotal | concat_files.py:81 | The order on path components is total on distinct components. |
| ConcatSearch.PathLessAsymmetric | concat_files.py:81 | The order on paths is asymmetric. |
| ConcatSearch.PathLessTotal | concat_files.py:81 | The order on paths is total on distinct paths. |
| ConcatSearch.Insert | concat_files.py:81 | Insertion adds exactly the one path. |
| ConcatSearch.InsertSorted | concat_files.py:81 | Insertion into a sorted list keeps it sorted. |
| ConcatSearch.SortPaths | concat_files.py:81 | `sort()` returns a sorted permutation of its input. |
| ConcatSearch.SortKeepsMembers | concat_files.py:81 | Sorting keeps exactly the same paths. |
| ConcatSearch.FileSearch.constructor | concat_files.py:58 | The search starts with an empty `matching_files`. |
| ConcatSearch.FileSearch.SearchDirectory | concat_files.py:60-72 | `matching_files` grows by exactly the matches of the directory, in listing order. An unlistable directory adds nothing. |
| ConcatSearch.FileSearch.VisitItem | concat_files.py:64-68 | One loop iteration appends the item's matches: a matching file, or a subdirectory searched one level down while below the bound. |
| ConcatSearch.FindMatchingFiles | concat_files.py:46-82 | The result is sorted and is the sorted list of the matches. A path is in it exactly when it names a matching file reachable from the root within `levels`. |
| ConcatOutput.ExcludeOutput | concat_files.py:164 | The filter keeps exactly the matches that are not the output file, and never adds any. |
| ConcatOutput.ExcludeOutputAppend | concat_files.py:164 | The filter works piece by piece, so the kept paths keep their order. |
| ConcatOutput.ExcludeOutputAbsent | concat_files.py:164 | When the output file is not a match, the filter keeps every match. |
| ConcatOutput.ProcessFiles | concat_files.py:175-183 | The read loop records, for each file in order, its path, its content and whether the read succeeded. |
| ConcatOutput.PathText | concat_files.py:193 | The printed path of the empty path is `.`, and any other printed path starts with its first component. |
| ConcatOutput.PathTextSplits | concat_files.py:193 | Splitting the printed path at `/` gives back its components, when no component holds a `/`. |
| ConcatOutput.ContentBlock | concat_files.py:197-201 | The written content is the content itself, or the content plus a newline. A newline is added exactly when the content is non-empty and does not already end with one. The block is empty exactly when the content is, and otherwise ends with a newline. |
| ConcatOutput.Record | concat_files.py:193-208 | A record holds the content verbatim right after its header, and always ends with a newline. |
| ConcatOutput.RecordShape | concat_files.py:193-208 | A record starts with its header and holds the content verbatim after it. The second separator comes last and always starts a line of its own. |
| ConcatOutput.OutputEnds | concat_files.py:206-208 | The output file ends with the second separator and a single newline. |
| ConcatOutput.BlankLineBetween | concat_files.py:203-205 | Every record but the last ends with the second separator and a blank line. |
| ConcatOutput.WriteRecord | concat_files.py:192-208 | One iteration writes exactly the record for its file. |
| ConcatOutput.WriteOutput | concat_files.py:189-208 | The writer loop produces exactly the records in order, with only the last one lacking the blank line. |
| ConcatOutput.SuccessCount | concat_files.py:210 | The number of successful reads is at most the number of files. |
| ConcatOutput.SuccessCountExtremes | concat_files.py:210 | The count equals the number of files exactly when every read succeeded, and is 0 exactly when none did. |
| ConcatOutput.CountSuccessfulReads | concat_files.py:210 | The loop's `successful_reads` is exactly `SuccessCount` of the records, the number of reads that succeeded. |
| ConcatOutput.SelectedIff | concat_files.py:161-164 | A file is processed exactly when it is a match of the search and not the output file. |
| ConcatOutput.ConcatFiles | concat_files.py:117-222 | The result is `False` when the folder is missing or is not a directory. Otherwise it is `True` exactly when some file is selected and writing succeeds. Then the file written is the rendering of the selected files in sorted order, and `successful_reads` is the count of successful reads among them. In every case `True` is returned exactly when the output was written. |
| ConcatMain.Validate | concat_files.py:283-313 | The run is rejected exactly when the levels are negative, no types are given, a given file name has an invalid character, or the path is not an existing directory. The first failing check decides the message: a missing path and a path that is not a directory each get their own message naming the path. The default output name is `concat_files_<today>.txt`. |
| ConcatMain.DefaultsAccepted | concat_files.py:238-296 | The default command line passes validation on an existing folder and writes `concat_files_<today>.txt`. |
| ConcatMain.EachInvalidCharRejected | concat_files.py:299-303 | Any one of the seven invalid characters in a given file name is enough to reject it. |
| ConcatMain.Run | concat_files.py:225-325 | The exit status is 0 or 1. A failed validation gives 1 and writes nothing. After validation passes, the status is 0 exactly when some file is selected and writing succeeds. The text written is then the rendering of the selected files' read results. The status is 0 exactly when the output file was written, and only for non-negative levels on an existing directory. |

## Left out

- `Math.random()` returns a double; the model takes an exact real in [0, 1).
- Route.Get: the places where the handler can throw are a parameter (`Fault`). Inside the `try`, only `new URL` and template generation are modelled. `console.error` is not modelled.
- The `fetch` call, HTTP and JSON parsing are parameters (`FetchOutcome`, `Body`). A JSON body is seen only through its string members `prompt` and `error`. A non-string `prompt` or `error` is not modelled.
- Reading `.prompt` of a `null` body throws a `TypeError`. The model does not reproduce the engine's exact message text.
- Api.ServerConcept: URL parsing is reduced to the one query string this client builds. The rest of `URLSearchParams` parsing is not modelled: other parameters, `+` as a space, and replacement characters for malformed UTF-8.
- UriComponent.EncodeURIComponent: strings are sequences of Unicode scalar values. The `URIError` thrown for a lone UTF-16 surrogate cannot arise in the model.
- Api.AbortTimer: the wall clock is not modelled. Which of `fetch` and the timeout settles first is a parameter (`Race`).
- PromptStorage: whether the backend throws on each call is a parameter. The logging of that error is not modelled.
- HomePage: the mount effect calls `getItem` directly, outside any `try`. The model does not include a `getItem` that throws there. A `removeItem` that throws in `handleClear` is modelled (`Clear(storageThrows)`), with the thrown error itself left out.
- HomePage.RunKeepsSynced: holds only while no `setItem` throws. `StorageWriteFailureDesyncs` shows that a throwing write breaks it.
- HomePage: the one-second simulated delay is the gap between the `BeginSubmit` and `CompleteSubmit` events. Its length is not modelled.
- HomePage: the page passes no `error` to the form. `PromptForm.Form.Retry` models the retry button for a caller that does pass one.
- HomePage: the placeholder prompt's template literal spans two source lines, so its text holds a newline and eight spaces. The model keeps them as written.
- HomePage and PromptForm: styling and markup are not modelled, nor is the `PromptCard`/`ClearButton` rendering beyond which view is shown.
- ConcatSearch.Suffix: models `Path.suffix` as pathlib defines it up to Python 3.13, where a name ending in a dot has no suffix. Later Python versions may report a trailing dot as the suffix.
- ConcatSearch.Lower: `str.lower` is modelled for ASCII letters only. Other Unicode case mappings are not modelled.
- ConcatSearch.FileSearch.SearchDirectory: each directory is either listable or raises on listing. An error part-way through `iterdir()` is not modelled: such an error keeps the items already found. Symbolic links, `PermissionError` messages and the warnings printed are not modelled.
- ConcatSearch: a folder is a tree value (`Entry`). Entries other than files and directories (`Other`) are skipped, as `is_file`/`is_dir` skip them.
- ConcatSearch.SortPaths: the order is pathlib's order on component lists, compared character by character. It is not the case-folding order of Windows paths.
- ConcatOutput: `read_file_content` and its encoding fallbacks are a parameter `read`.
- ConcatOutput: writing the output file either fails before anything is written or succeeds (`writeFails`). A failure part-way through is not modelled.
- ConcatOutput: `process_escape_sequences` is not modelled. The separators arrive already processed.
- ConcatOutput: `Path.resolve()`, `..`, symbolic links and the absolute-path fallback of `relative_to` are not modelled. Paths are relative component lists, and an output file name is a single component.
- ConcatMain: `argparse` parsing, help text and the messages printed are not modelled. `datetime.now().strftime` is the parameter `today`.
- ConcatMain: the folder's existence and kind come from the tree itself (`KindOf`). `main` and `concat_files` then check the same folder, so their checks agree.
