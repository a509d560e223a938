# Transcription Wizard: a Dafny model of the chunking and two-pass pipeline

Transcription Wizard turns a raw transcript of a Chinese-language interview into a bilingual document. It makes two passes over a remote language model.

1. **Formatting.** `process_formatting` reads the input file and cuts it into chunks with `split_text`. It sends each chunk to the model to have paragraph breaks added and questions marked. The joined results go to an intermediate file.
2. **Translation.** `process_translation` reads the intermediate file line by line. It skips blank lines and sends every other line to the model for translation. It writes each line, its translation and an empty line to the output file, then deletes the intermediate file.

`start_processing` checks that all three paths are non-empty and then runs the two passes in sequence. `select_input_file` proposes the intermediate and output paths by inserting " intermediate" or " Transcript" before the input file's extension.

The model has six modules:

- `Wrappers`: `Option`.
- `Strings`: Python's `str.split('\n')`, `"\n".join(...)` and the blank test `not s.strip()`, with the round-trip lemmas relating them.
- `Chunker`: `split_text`. The loop is a method, `SplitText`, proved against a left-fold specification (`Step`, `Pack`, `Groups`, `Chunks`).
- `Stages`: the two model-call loops as functions on lists (`FormatPass`, `TranslatePass`), plus what each one means.
- `Paths`: `os.path.splitext` under POSIX rules, the two default paths and the entry update done by `select_input_file`.
- `Pipeline`: the disk is a class `Workspace` whose field `files` maps paths to contents. Its methods `ProcessFormatting`, `ProcessTranslation` and `StartProcessing` are proved equal to the effect functions `FormatEffect`, `TranslateEffect` and `Run`. Lemmas state what those effects promise.

The remote model is an **oracle**: a function from the text sent to `Option<string>`. Being a function, it gives the same reply every time it is sent the same text, including two identical lines of one document. The remote service makes no such promise. The translation layout (`Stages.Triples`) relies on it.

- `None` stands for a call that raised, since the wrapper then returns `None`.
- `Some(s)` is the stripped reply.
- Python's truth test becomes `Truthy`: `None` and `""` both count as failure.

A missing file makes Python's `open` raise. The model reports this as `NotFound`.

Three behaviours of the code are easy to miss:

- **A line longer than the maximum.** `split_text` first closes the still-empty running chunk, so one oversize line gives the chunks `["", line]` (`Chunker.OversizeLineChunks`). The empty chunk is sent to the formatting model like any other. An empty chunk is not confined to the front either. The empty text gives `[""]` (`Chunker.EmptyTextChunks`), and an oversize line followed by a newline gives `["", line, ""]` (`Chunker.OversizeLineThenNewline`). Only at the level of line groups is the empty group confined to the front (`Chunker.GroupsFirst`).
- **Translation after a failed formatting pass.** On a failed chunk, `process_formatting` only shows an error and returns. `start_processing` then calls `process_translation` anyway, which works on whatever the intermediate path already held (`Pipeline.RunSequence`). Only an exception, such as a missing input file, stops translation from running.
- **How chunk size is counted.** `split_text` adds up only the line lengths. A chunk of n lines can therefore be n - 1 newline characters longer than the maximum (`Chunker.GroupsBounded` bounds the line lengths).

## Model

| member | source | states |
|---|---|---|
| Strings.Split | Transcription_Wizard.py:60 | `text.split('\n')` always yields at least one piece |
| Strings.SplitPiecesHaveNoNewline | Transcription_Wizard.py:104 | no line produced by the split holds a newline |
| Strings.JoinSplit | Transcription_Wizard.py:60 | joining the pieces of a split with newlines gives the text back |
| Strings.SplitJoin | Transcription_Wizard.py:60 | splitting a newline-join of newline-free parts gives exactly those parts back; the model uses it for texts of one or two lines |
| Strings.JoinFlatten | Transcription_Wizard.py:63-71 | joining each non-empty group and then joining those results equals joining all the lines at once |
| Strings.Join | Transcription_Wizard.py:63 | the length of a join is the parts' total length plus one newline between each pair of neighbours |
| Strings.IsSpace | Transcription_Wizard.py:108 | the characters argument-less `str.strip()` removes: Python's `isspace` code points (used by `Stages.NonBlank`) |
| Strings.Blank | Transcription_Wizard.py:108 | `not paragraph.strip()`: the line is empty or all whitespace; its meaning for the pass is proved in `Stages.NonBlank` and `Stages.TranslatePassMeaning` |
| Chunker.Step | Transcription_Wizard.py:61-68 | one loop iteration: an overflowing line closes the running group, even an empty one, and starts a new one; otherwise it joins the running group (meaning proved in `Chunker.PackCovers`, `Chunker.PackBounded`, `Chunker.StepBounded`) |
| Chunker.Pack | Transcription_Wizard.py:56-68 | the loop state after all the lines (meaning proved in `Chunker.PackCovers`, `Chunker.PackBounded`, `Chunker.PackFirstGroup`) |
| Chunker.Groups | Transcription_Wizard.py:70-71 | the closed groups, plus the running group when it is non-empty (meaning proved in `Chunker.GroupsCover`, `Chunker.GroupsFirst`, `Chunker.GroupsBounded`) |
| Chunker.Chunks | Transcription_Wizard.py:54-73 | the return value of `split_text` (meaning proved in `Chunker.ChunksRoundTrip` and `Chunker.SplitText`) |
| Chunker.PackCovers | Transcription_Wizard.py:56-68 | after any prefix of lines, the closed groups followed by the running group are exactly that prefix in order; the running length is the running group's total length; the running group is empty only before the first line |
| Chunker.PackBounded | Transcription_Wizard.py:60-68 | every closed or running group of two or more lines has line lengths adding up to at most the maximum |
| Chunker.StepBounded | Transcription_Wizard.py:62-68 | one loop iteration keeps every group of two or more lines within the maximum |
| Chunker.PackFirstGroup | Transcription_Wizard.py:62-65 | only the first closed group can be empty, and it is empty exactly when the first line alone is longer than the maximum |
| Chunker.GroupsCover | Transcription_Wizard.py:60-71 | the emitted groups contain every line in order, with none lost or repeated, and the last group is never empty |
| Chunker.GroupsFirst | Transcription_Wizard.py:62-71 | only the first emitted group can be empty, exactly when the first line alone is longer than the maximum |
| Chunker.GroupsBounded | Transcription_Wizard.py:60-71 | each emitted group of two or more lines stays within the maximum, counting line characters only |
| Chunker.ChunksRoundTrip | Transcription_Wizard.py:54-73 | `split_text` returns at least one chunk, and joining the chunks with newlines gives the text back, with one extra leading newline when the first line is oversize |
| Chunker.PackFits | Transcription_Wizard.py:60-68 | lines whose lengths add up to at most the maximum all stay in one running group, and nothing is closed |
| Chunker.ShortTextIsOneChunk | Transcription_Wizard.py:54-73 | a text no longer than the maximum is returned as the single chunk `[text]` |
| Chunker.OversizeLineChunks | Transcription_Wizard.py:62-65 | one newline-free line longer than the maximum is returned as `["", line]` |
| Chunker.EmptyTextChunks | Transcription_Wizard.py:60-73 | the empty text comes back as the single empty chunk `[""]` |
| Chunker.OversizeLineThenNewline | Transcription_Wizard.py:60-73 | an oversize newline-free line followed by a newline comes back as `["", line, ""]`, so empty chunks can appear at both ends |
| Chunker.SplitText | Transcription_Wizard.py:54-73 | the loop computes the chunk list of the fold specification; the list is non-empty and joins back to the text as in `ChunksRoundTrip` |
| Stages.Truthy | Transcription_Wizard.py:87 | Python's truth test on a wrapper result: `None` and `""` are false (used in every pass lemma) |
| Stages.FormatPass | Transcription_Wizard.py:83-91 | the formatting loop on a list of chunks (meaning proved in `Stages.FormatPassMeaning`) |
| Stages.TranslatePass | Transcription_Wizard.py:105-117 | the translation loop on a list of lines (meaning proved in `Stages.TranslatePassMeaning`) |
| Stages.FormatPassMeaning | Transcription_Wizard.py:83-91 | the formatting loop completes if and only if every chunk's result is truthy, and then holds the results in chunk order; otherwise it names the 1-based index of the first chunk with a falsy result, every earlier result being truthy |
| Stages.FormatPassStops | Transcription_Wizard.py:87-91 | once the loop has failed on a prefix, the later chunks change nothing |
| Stages.NonBlank | Transcription_Wizard.py:108 | the kept lines are exactly the lines that `strip()` does not reduce to nothing, and there are no more of them than lines |
| Stages.TranslatePassMeaning | Transcription_Wizard.py:107-117 | the translation loop completes if and only if every non-blank line's result is truthy; its buffer then holds, for the i-th non-blank line, that line, its result and `""`; otherwise it names the 1-based index (blank lines counted) of the first non-blank line with a falsy result |
| Stages.TranslatePassFailure | Transcription_Wizard.py:108-117 | the failure half of `TranslatePassMeaning` and its completion condition |
| Stages.TranslatePassLayout | Transcription_Wizard.py:111-114 | the buffer of a completed pass is the line, result and `""` triples of the non-blank lines, in order |
| Stages.TranslatePassStops | Transcription_Wizard.py:115-117 | once the loop has failed on a prefix, the later lines change nothing |
| Paths.RFind | Transcription_Wizard.py:140 | the `rfind` that `os.path.splitext` uses: the index of the last occurrence of a character, or -1 (characterised by the ensures of `Paths.LastBelow` and by `Paths.RFindSkips`) |
| Paths.SplitExt | Transcription_Wizard.py:140 | `splitext` cuts the path in two, and base followed by extension is the path |
| Paths.SplitExtGivesExtension | Transcription_Wizard.py:140 | the part split off is empty, or a dot followed by characters that are neither dot nor `/` |
| Paths.LabelKeepsExtension | Transcription_Wizard.py:140-142 | putting a label free of `/` and `.` between base and extension leaves the extension unchanged, and the new base ends with the label |
| Paths.DefaultPaths | Transcription_Wizard.py:140-142 | each default path is its label's length longer than the input path, so the two differ from each other and from the input path |
| Paths.LabelsArePlain | Transcription_Wizard.py:141-142 | the labels " intermediate" and " Transcript" are non-empty and hold no `/` and no `.` |
| Paths.DefaultPathsKeepExtension | Transcription_Wizard.py:140-142 | both default paths keep the input's extension, with the base ending in " intermediate" or " Transcript" |
| Paths.SelectInputFile | Transcription_Wizard.py:135-146 | the input entry always shows the chosen path; the other two entries change only when a path was chosen, and then hold the default paths, non-empty and pairwise distinct from each other and from the input |
| Pipeline.PathsGiven | Transcription_Wizard.py:154 | the guard of `start_processing`: all three paths non-empty (its effect proved in `Pipeline.RunSequence`) |
| Pipeline.FormatEffect | Transcription_Wizard.py:75-97 | the report and new disk of `process_formatting` (meaning proved in `Pipeline.FormatEffectMeaning`) |
| Pipeline.TranslateEffect | Transcription_Wizard.py:99-131 | the report and new disk of `process_translation` (meaning proved in `Pipeline.TranslateEffectMeaning`) |
| Pipeline.Run | Transcription_Wizard.py:148-159 | the report and new disk of `start_processing` (meaning proved in `Pipeline.RunSequence`) |
| Pipeline.FormatWrite | Transcription_Wizard.py:90-97 | the end of `process_formatting`: a completed pass writes its results joined with newlines to the intermediate path and reports success; a failed pass reports the failing index and writes nothing (meaning proved in `Pipeline.FormatWriteMeaning`) |
| Pipeline.TranslateWrite | Transcription_Wizard.py:114-131 | the end of `process_translation`: a completed pass writes its buffer joined with newlines to the output path and removes the intermediate file, keeping it when the removal raises and the error is swallowed; a failed pass reports the failing index and writes nothing (meaning proved in `Pipeline.TranslateWriteMeaning`) |
| Pipeline.FormatWriteMeaning | Transcription_Wizard.py:83-97 | ending the formatting loop either saves the newline-joined results, in chunk order, to the intermediate path and changes no other file, or reports the first failing chunk and changes nothing |
| Pipeline.FormatEffectMeaning | Transcription_Wizard.py:75-97 | `process_formatting` reports a missing input file and changes nothing, or else keeps the promise of `FormatWriteMeaning` on the chunks of the input file |
| Pipeline.TranslateWriteMeaning | Transcription_Wizard.py:107-131 | ending the translation loop either writes the joined triples to the output path and removes the intermediate file, or, when removal fails, leaves the intermediate file with its contents; no other file changes; otherwise it reports the first failing line and changes nothing |
| Pipeline.TranslateEffectMeaning | Transcription_Wizard.py:99-131 | `process_translation` reports a missing intermediate file and changes nothing, or else keeps the promise of `TranslateWriteMeaning` on the lines of that file |
| Pipeline.RunSequence | Transcription_Wizard.py:148-159 | with a path empty, only the warning is given and no file changes; otherwise formatting runs, and translation runs unless the input file was missing, also after a failed chunk |
| Pipeline.RunAfterFormatting | Transcription_Wizard.py:158-159 | with the paths given and formatting not raising, a run is formatting followed by translation on the disk formatting left |
| Pipeline.FormatSucceeds | Transcription_Wizard.py:83-97 | if every chunk succeeds, formatting reports success and adds or overwrites only the intermediate file |
| Pipeline.TranslatesEveryLine | Transcription_Wizard.py:104-117 | every non-blank line of a text, split at newlines, gets a truthy result: the condition under which the translation loop never stops early (used by `Pipeline.TranslateSucceeds`) |
| Pipeline.TranslateSucceeds | Transcription_Wizard.py:107-131 | if every non-blank line of the intermediate file gets a truthy result (`TranslatesEveryLine`, a condition on the lines the pass sends, not on every string) and removal works, translation reports success, adds the output file, removes the intermediate file and changes nothing else |
| Pipeline.CompleteRun | Transcription_Wizard.py:148-159 | with three distinct non-empty paths, a truthy result for every chunk of the input file and for every non-blank line of the formatted text that formatting produces, a run reports two successes, writes the output, leaves no intermediate file and keeps every other file, the input included |
| Pipeline.TranslateAfterFormatting | Transcription_Wizard.py:154-159 | once formatting has saved and only added the intermediate file, translation that gets a truthy result for every non-blank line of that file reports success, puts the output file in place of the intermediate one and keeps every other file |
| Pipeline.DefaultPathsPipeline | Transcription_Wizard.py:139-159 | with the paths `select_input_file` proposes, a run in which every oracle call it makes succeeds (each chunk, then each non-blank line of the formatted text) ends with both successes, the output written, no intermediate file and the input unchanged |
| Pipeline.FormatChunks | Transcription_Wizard.py:83-91 | the formatting loop computes `FormatPass`, and it sends the chunks in order, none after the one that failed |
| Pipeline.TranslateLines | Transcription_Wizard.py:105-117 | the translation loop computes `TranslatePass`, and it sends exactly the non-blank lines in order, none after the one that failed |
| Pipeline.Workspace.ProcessFormatting | Transcription_Wizard.py:75-97 | the new disk and the report are those of `FormatEffect`, and the chunks sent are those of the input file up to the failing one |
| Pipeline.Workspace.ProcessTranslation | Transcription_Wizard.py:99-131 | the new disk and the report are those of `TranslateEffect`, and the lines sent are the non-blank lines of the intermediate file up to the failing one |
| Pipeline.Workspace.StartProcessing | Transcription_Wizard.py:148-159 | the new disk and the report are those of `Run`, and with a path empty nothing changes |

## Left out

- `add_paragraph_breaks` and `translate_paragraphs` (lines 11-52) are the oracle parameters `format` and `translate`. The model does not capture the prompts, the `gpt-4o` model name, the network call or the `.strip()` of the reply, which is part of the oracle's result.
- The API key assignment (line 9) is not modelled, since it is configuration only.
- `print` progress and error output is not modelled, since it has no effect on files or results.
- Message boxes become `Report` values: `Saved` for the success box, `Failed(index)` for the error box and `MissingPaths` for the warning.
- The Tk window, its entries and the file dialog (lines 133-137 and 161-189) are not modelled. The dialog's answer is the parameter `chosen` of `Paths.SelectInputFile`, and the three entry fields are the value `Entries`. Updating the widgets in place is not modelled.
- The file system is a map from path to contents:
  - Reading a missing file is the only I/O error modelled, as `NotFound`.
  - Writes never fail.
  - UTF-8 decoding and encoding are not modelled.
  - A read returns exactly what was written. Python's text-mode newline translation on read is not modelled. In Python, `"\r\n"` and `"\r"` read back as `"\n"`, so a formatting reply holding `"\r"` gives the translation pass more lines than the model does.
- Pipeline.Workspace.ProcessTranslation: a failing `os.remove` is the parameter `removeFails` and not a modelled file-system condition. The exception is swallowed, as in the code.
- Paths.SplitExt follows POSIX `os.path.splitext` for `/`-separated paths. Windows drive letters and `\` separators are not modelled.
- An exception other than a missing file is not modelled. This covers permission errors, and an exception from a message box or from the oracle wrappers themselves.
