/**
 * `process_formatting`, `process_translation` and `start_processing`
 * over a disk modelled as a map from path to file contents. Each message
 * box becomes a `Report`; an `open` of a missing file, which raises in
 * Python, becomes `NotFound`.
 */
module Pipeline {
  import opened Wrappers
  import opened Strings
  import opened Chunker
  import opened Stages
  import opened Paths

  /** What a stage shows the user, or the missing file its `open` raised on. */
  datatype Report = Saved(path: string) | Failed(index: nat) | NotFound(path: string)

  /**
   * The outcome of `start_processing`: the missing-paths warning, or the
   * formatting report followed by the translation report when translation
   * ran (it does not when formatting raised).
   */
  datatype RunReport = MissingPaths | Ran(formatting: Report, translation: Option<Report>)

  /** The guard of `start_processing`: all three paths are non-empty. */
  predicate PathsGiven(inputPath: string, formattedPath: string, outputPath: string)
  {
    inputPath != "" && formattedPath != "" && outputPath != ""
  }

  /**
   * What `process_formatting` promises once the input file has been read
   * and cut into `chunks`: either every chunk's result is truthy and the
   * newline-joined results, in chunk order, are written to the intermediate
   * path with nothing else changed; or the 1-based index of the first chunk
   * whose result is falsy is reported and nothing changes.
   */
  ghost predicate FormatOutcome(files: map<string, string>, formattedPath: string, chunks: seq<string>,
                                transform: Oracle, report: Report, after: map<string, string>)
  {
    && !report.NotFound?
    && (report.Saved? <==> forall i :: 0 <= i < |chunks| ==> Truthy(transform(chunks[i])))
    && (report.Failed? ==>
          after == files && 1 <= report.index <= |chunks| &&
          !Truthy(transform(chunks[report.index - 1])) &&
          forall j :: 0 <= j < report.index - 1 ==> Truthy(transform(chunks[j])))
    && (report.Saved? ==>
          report.path == formattedPath &&
          after.Keys == files.Keys + {formattedPath} &&
          (forall p :: p in files && p != formattedPath ==> after[p] == files[p]) &&
          exists results: seq<string> ::
            |results| == |chunks| && after[formattedPath] == Join(results) &&
            forall i :: 0 <= i < |chunks| ==> transform(chunks[i]) == Some(results[i]))
  }

  /**
   * What `process_translation` promises once the intermediate file has been
   * read and split into `lines`: either every non-blank line's result is
   * truthy, the output file gets the newline-joined `line, result, ""`
   * triples of the non-blank lines in order, the intermediate file is gone
   * unless its removal failed (and then keeps its contents), and no other
   * file changes; or the 1-based
   * index of the first non-blank line whose result is falsy is reported and
   * nothing changes.
   */
  ghost predicate TranslateOutcome(files: map<string, string>, formattedPath: string, outputPath: string,
                                   removeFails: bool, lines: seq<string>, transform: Oracle,
                                   report: Report, after: map<string, string>)
  {
    && !report.NotFound?
    && (report.Saved? <==>
          forall i :: 0 <= i < |lines| && !Blank(lines[i]) ==> Truthy(transform(lines[i])))
    && (report.Failed? ==>
          after == files && 1 <= report.index <= |lines| &&
          !Blank(lines[report.index - 1]) && !Truthy(transform(lines[report.index - 1])) &&
          forall j :: 0 <= j < report.index - 1 && !Blank(lines[j]) ==> Truthy(transform(lines[j])))
    && (report.Saved? ==>
          report.path == outputPath &&
          (formattedPath in after <==> removeFails) &&
          (removeFails && formattedPath != outputPath ==>
             formattedPath in files && after[formattedPath] == files[formattedPath]) &&
          (outputPath in after <==> removeFails || outputPath != formattedPath) &&
          (forall p :: p in files && p != formattedPath && p != outputPath ==> p in after && after[p] == files[p]) &&
          (forall p :: p in after ==> p in files || p == outputPath) &&
          (outputPath in after ==>
            exists buffer: seq<string> ::
              after[outputPath] == Join(buffer) && Triples(buffer, NonBlank(lines), transform)))
  }

  /** The report and the new disk once the formatting pass has ended: save the joined results, or report the failing chunk. */
  function FormatWrite(files: map<string, string>, formattedPath: string, pass: PassResult): (Report, map<string, string>)
  {
    match pass
    case Completed(results) => (Saved(formattedPath), files[formattedPath := Join(results)])
    case FailedAt(k) => (Failed(k), files)
  }

  /** The report and the new disk after `process_formatting`. */
  function FormatEffect(files: map<string, string>, inputPath: string, formattedPath: string,
                        transform: Oracle): (Report, map<string, string>)
  {
    if inputPath !in files then (NotFound(inputPath), files)
    else FormatWrite(files, formattedPath, FormatPass(Chunks(files[inputPath], DefaultMaxChunkSize), transform))
  }

  /**
   * The report and the new disk once the translation pass has ended: write
   * the buffer and remove the intermediate file (unless `removeFails`, the
   * removal raising and being swallowed), or report the failing line.
   */
  function TranslateWrite(files: map<string, string>, formattedPath: string, outputPath: string,
                          removeFails: bool, pass: PassResult): (Report, map<string, string>)
  {
    match pass
    case Completed(buffer) =>
      var written := files[outputPath := Join(buffer)];
      (Saved(outputPath), if removeFails then written else written - {formattedPath})
    case FailedAt(k) => (Failed(k), files)
  }

  /** The report and the new disk after `process_translation`. */
  function TranslateEffect(files: map<string, string>, formattedPath: string, outputPath: string,
                           transform: Oracle, removeFails: bool): (Report, map<string, string>)
  {
    if formattedPath !in files then (NotFound(formattedPath), files)
    else TranslateWrite(files, formattedPath, outputPath, removeFails,
                        TranslatePass(Split(files[formattedPath]), transform))
  }

  /** The report and the new disk after `start_processing`. */
  function Run(files: map<string, string>, inputPath: string, formattedPath: string, outputPath: string,
               format: Oracle, translate: Oracle, removeFails: bool): (RunReport, map<string, string>)
  {
    if !PathsGiven(inputPath, formattedPath, outputPath) then (MissingPaths, files)
    else
      var (formatting, afterFormat) := FormatEffect(files, inputPath, formattedPath, format);
      if formatting.NotFound? then (Ran(formatting, None), afterFormat)
      else
        var (translation, afterTranslate) :=
          TranslateEffect(afterFormat, formattedPath, outputPath, translate, removeFails);
        (Ran(formatting, Some(translation)), afterTranslate)
  }

  /** Ending the formatting pass over `chunks` keeps the promise of `FormatOutcome`. */
  lemma FormatWriteMeaning(files: map<string, string>, formattedPath: string, chunks: seq<string>,
                           transform: Oracle)
    ensures var (report, after) := FormatWrite(files, formattedPath, FormatPass(chunks, transform));
      FormatOutcome(files, formattedPath, chunks, transform, report, after)
  {
    FormatPassMeaning(chunks, transform);
    var p := FormatPass(chunks, transform);
    if p.Completed? {
      var results := p.output;
      assert |results| == |chunks| &&
             forall i :: 0 <= i < |chunks| ==> transform(chunks[i]) == Some(results[i]);
    }
  }

  /**
   * `process_formatting` either reports the missing input file and changes
   * nothing, or keeps the promise of `FormatOutcome` on the chunks of the
   * input file.
   */
  lemma FormatEffectMeaning(files: map<string, string>, inputPath: string, formattedPath: string,
                            transform: Oracle)
    ensures var (report, after) := FormatEffect(files, inputPath, formattedPath, transform);
      && (inputPath !in files ==> report == NotFound(inputPath) && after == files)
      && (inputPath in files ==>
            FormatOutcome(files, formattedPath, Chunks(files[inputPath], DefaultMaxChunkSize), transform, report, after))
  {
    if inputPath in files {
      FormatWriteMeaning(files, formattedPath, Chunks(files[inputPath], DefaultMaxChunkSize), transform);
    }
  }

  /** Ending the translation pass over `lines` keeps the promise of `TranslateOutcome`. */
  lemma TranslateWriteMeaning(files: map<string, string>, formattedPath: string, outputPath: string,
                              removeFails: bool, lines: seq<string>, transform: Oracle)
    requires formattedPath in files
    ensures var (report, after) := TranslateWrite(files, formattedPath, outputPath, removeFails,
                                                  TranslatePass(lines, transform));
      TranslateOutcome(files, formattedPath, outputPath, removeFails, lines, transform, report, after)
  {
    TranslatePassMeaning(lines, transform);
    var p := TranslatePass(lines, transform);
    if p.Completed? {
      assert Triples(p.output, NonBlank(lines), transform);
    }
  }

  /**
   * `process_translation` either reports the missing intermediate file and
   * changes nothing, or keeps the promise of `TranslateOutcome` on the lines
   * of the intermediate file.
   */
  lemma TranslateEffectMeaning(files: map<string, string>, formattedPath: string, outputPath: string,
                               transform: Oracle, removeFails: bool)
    ensures var (report, after) := TranslateEffect(files, formattedPath, outputPath, transform, removeFails);
      && (formattedPath !in files ==> report == NotFound(formattedPath) && after == files)
      && (formattedPath in files ==>
            TranslateOutcome(files, formattedPath, outputPath, removeFails, Split(files[formattedPath]),
                             transform, report, after))
  {
    if formattedPath in files {
      TranslateWriteMeaning(files, formattedPath, outputPath, removeFails, Split(files[formattedPath]), transform);
    }
  }

  /**
   * `start_processing`: with a path missing nothing is touched; otherwise
   * formatting runs, and translation then runs whenever formatting did not
   * raise, even after a failed chunk, in which case it works on whatever
   * the disk held at the intermediate path before.
   */
  lemma RunSequence(files: map<string, string>, inputPath: string, formattedPath: string, outputPath: string,
                    format: Oracle, translate: Oracle, removeFails: bool)
    ensures var (report, after) := Run(files, inputPath, formattedPath, outputPath, format, translate, removeFails);
      && (!PathsGiven(inputPath, formattedPath, outputPath) ==> report == MissingPaths && after == files)
      && (PathsGiven(inputPath, formattedPath, outputPath) ==>
            && report.Ran?
            && report.formatting == FormatEffect(files, inputPath, formattedPath, format).0
            && (report.translation.None? <==> inputPath !in files)
            && (report.formatting.Failed? ==>
                  var (translation, afterTranslate) :=
                    TranslateEffect(files, formattedPath, outputPath, translate, removeFails);
                  report.translation == Some(translation) && after == afterTranslate))
  {
    if PathsGiven(inputPath, formattedPath, outputPath) && inputPath in files {
      var (formatting, afterFormat) := FormatEffect(files, inputPath, formattedPath, format);
      assert !formatting.NotFound?;
      if formatting.Failed? {
        assert afterFormat == files;
      }
    }
  }

  /** When every chunk's result is truthy, formatting saves and adds only the intermediate file. */
  lemma FormatSucceeds(files: map<string, string>, inputPath: string, formattedPath: string, format: Oracle)
    requires inputPath in files
    requires var chunks := Chunks(files[inputPath], DefaultMaxChunkSize);
      forall i :: 0 <= i < |chunks| ==> Truthy(format(chunks[i]))
    ensures var (report, after) := FormatEffect(files, inputPath, formattedPath, format);
      && report == Saved(formattedPath)
      && after.Keys == files.Keys + {formattedPath}
      && (forall p :: p in files && p != formattedPath ==> p in after && after[p] == files[p])
  {
    FormatEffectMeaning(files, inputPath, formattedPath, format);
  }

  /** Every non-blank line of `text` gets a truthy result: what the translation pass needs to complete on it. */
  predicate TranslatesEveryLine(text: string, transform: Oracle)
  {
    forall i :: 0 <= i < |Split(text)| && !Blank(Split(text)[i]) ==> Truthy(transform(Split(text)[i]))
  }

  /**
   * When every non-blank line of the intermediate file gets a truthy result
   * and the removal works, translation saves, adds the output file and
   * removes the intermediate one.
   */
  lemma TranslateSucceeds(files: map<string, string>, formattedPath: string, outputPath: string, translate: Oracle)
    requires formattedPath in files && formattedPath != outputPath
    requires TranslatesEveryLine(files[formattedPath], translate)
    ensures var (report, after) := TranslateEffect(files, formattedPath, outputPath, translate, false);
      && report == Saved(outputPath)
      && after.Keys == files.Keys + {outputPath} - {formattedPath}
      && (forall p :: p in files && p != formattedPath && p != outputPath ==> p in after && after[p] == files[p])
  {
    TranslateEffectMeaning(files, formattedPath, outputPath, translate, false);
    var (report, after) := TranslateEffect(files, formattedPath, outputPath, translate, false);
    assert report.Saved?;
    forall p ensures p in after <==> p in files.Keys + {outputPath} - {formattedPath} {
    }
  }

  /**
   * With three distinct non-empty paths, a run in which every oracle call it
   * makes succeeds (each chunk of the input file, then each non-blank line
   * of the formatted text) and the removal works reports two successes, leaves the input
   * file as it was, writes the output file and leaves no intermediate file
   * behind; no other file changes.
   */
  lemma CompleteRun(files: map<string, string>, inputPath: string, formattedPath: string, outputPath: string,
                    format: Oracle, translate: Oracle)
    requires inputPath in files && PathsGiven(inputPath, formattedPath, outputPath)
    requires inputPath != formattedPath && inputPath != outputPath && formattedPath != outputPath
    requires var chunks := Chunks(files[inputPath], DefaultMaxChunkSize);
      forall i :: 0 <= i < |chunks| ==> Truthy(format(chunks[i]))
    requires var pass := FormatPass(Chunks(files[inputPath], DefaultMaxChunkSize), format);
      pass.Completed? ==> TranslatesEveryLine(Join(pass.output), translate)
    ensures var (report, after) := Run(files, inputPath, formattedPath, outputPath, format, translate, false);
      && report == Ran(Saved(formattedPath), Some(Saved(outputPath)))
      && after.Keys == files.Keys + {outputPath} - {formattedPath}
      && (forall p :: p in files && p != formattedPath && p != outputPath ==> p in after && after[p] == files[p])
  {
    FormatSucceeds(files, inputPath, formattedPath, format);
    TranslateAfterFormatting(files, inputPath, formattedPath, outputPath, format, translate);
  }

  /**
   * A run whose formatting stage saved and only added the intermediate file
   * ends, when every non-blank line of the intermediate file it wrote gets
   * a truthy result and the removal works, with the output file in place of
   * the intermediate one.
   */
  lemma TranslateAfterFormatting(files: map<string, string>, inputPath: string, formattedPath: string,
                                 outputPath: string, format: Oracle, translate: Oracle)
    requires PathsGiven(inputPath, formattedPath, outputPath) && formattedPath != outputPath
    requires var (report, after) := FormatEffect(files, inputPath, formattedPath, format);
      && report == Saved(formattedPath)
      && after.Keys == files.Keys + {formattedPath}
      && (forall p :: p in files && p != formattedPath ==> p in after && after[p] == files[p])
    requires TranslatesEveryLine(FormatEffect(files, inputPath, formattedPath, format).1[formattedPath], translate)
    ensures var (report, after) := Run(files, inputPath, formattedPath, outputPath, format, translate, false);
      && report == Ran(Saved(formattedPath), Some(Saved(outputPath)))
      && after.Keys == files.Keys + {outputPath} - {formattedPath}
      && (forall p :: p in files && p != formattedPath && p != outputPath ==> p in after && after[p] == files[p])
  {
    var afterFormat := FormatEffect(files, inputPath, formattedPath, format).1;
    TranslateSucceeds(afterFormat, formattedPath, outputPath, translate);
    RunAfterFormatting(files, inputPath, formattedPath, outputPath, format, translate, false);
    var after := TranslateEffect(afterFormat, formattedPath, outputPath, translate, false).1;
    ReplaceIntermediate(files, afterFormat, after, formattedPath, outputPath);
  }

  /**
   * Adding the intermediate file and then trading it for the output file
   * adds the output file alone; every other file keeps its contents.
   */
  lemma ReplaceIntermediate(files: map<string, string>, middle: map<string, string>, after: map<string, string>,
                            formattedPath: string, outputPath: string)
    requires middle.Keys == files.Keys + {formattedPath}
    requires forall p :: p in files && p != formattedPath ==> p in middle && middle[p] == files[p]
    requires after.Keys == middle.Keys + {outputPath} - {formattedPath}
    requires forall p :: p in middle && p != formattedPath && p != outputPath ==> p in after && after[p] == middle[p]
    ensures after.Keys == files.Keys + {outputPath} - {formattedPath}
    ensures forall p :: p in files && p != formattedPath && p != outputPath ==> p in after && after[p] == files[p]
  {
  }

  /** With the paths given and the input file present, a run is formatting followed by translation on the disk it left. */
  lemma RunAfterFormatting(files: map<string, string>, inputPath: string, formattedPath: string, outputPath: string,
                           format: Oracle, translate: Oracle, removeFails: bool)
    requires PathsGiven(inputPath, formattedPath, outputPath)
    requires !FormatEffect(files, inputPath, formattedPath, format).0.NotFound?
    ensures var (formatting, afterFormat) := FormatEffect(files, inputPath, formattedPath, format);
      var (translation, afterTranslate) := TranslateEffect(afterFormat, formattedPath, outputPath, translate, removeFails);
      Run(files, inputPath, formattedPath, outputPath, format, translate, removeFails)
        == (Ran(formatting, Some(translation)), afterTranslate)
  {
  }

  /**
   * `CompleteRun` for the paths `select_input_file` proposes: they are
   * non-empty and distinct from each other and from the input path.
   */
  lemma DefaultPathsPipeline(files: map<string, string>, inputPath: string, format: Oracle, translate: Oracle)
    requires inputPath in files && inputPath != ""
    requires var chunks := Chunks(files[inputPath], DefaultMaxChunkSize);
      forall i :: 0 <= i < |chunks| ==> Truthy(format(chunks[i]))
    requires var pass := FormatPass(Chunks(files[inputPath], DefaultMaxChunkSize), format);
      pass.Completed? ==> TranslatesEveryLine(Join(pass.output), translate)
    ensures var (formattedPath, outputPath) := DefaultPaths(inputPath);
      var (report, after) := Run(files, inputPath, formattedPath, outputPath, format, translate, false);
      && report == Ran(Saved(formattedPath), Some(Saved(outputPath)))
      && after.Keys == files.Keys + {outputPath} - {formattedPath}
      && inputPath in after && after[inputPath] == files[inputPath]
  {
    var (formattedPath, outputPath) := DefaultPaths(inputPath);
    assert formattedPath != "" && outputPath != "";
    CompleteRun(files, inputPath, formattedPath, outputPath, format, translate);
  }

  /**
   * The loop of `process_formatting`: hands the chunks to the oracle in
   * order and stops at the first falsy result. `sent` lists the chunks
   * handed over, in order: none after the one that failed.
   */
  method FormatChunks(chunks: seq<string>, transform: Oracle) returns (pass: PassResult, ghost sent: seq<string>)
    ensures pass == FormatPass(chunks, transform)
    ensures pass.FailedAt? ==> pass.index <= |chunks| && sent == chunks[..pass.index]
    ensures pass.Completed? ==> sent == chunks
  {
    sent := [];
    var formattedChunks: seq<string> := [];
    for idx := 0 to |chunks|
      invariant FormatPass(chunks[..idx], transform) == Completed(formattedChunks)
      invariant sent == chunks[..idx]
    {
      assert chunks[..idx + 1][..idx] == chunks[..idx];
      sent := sent + [chunks[idx]];
      var formattedChunk := transform(chunks[idx]);
      if Truthy(formattedChunk) {
        formattedChunks := formattedChunks + [formattedChunk.value];
      } else {
        FormatPassStops(chunks, idx + 1, transform);
        pass := FailedAt(idx + 1);
        return;
      }
    }
    assert chunks[..|chunks|] == chunks;
    pass := Completed(formattedChunks);
  }

  /**
   * The loop of `process_translation`: skips blank lines, hands the others
   * to the oracle in order and stops at the first falsy result. `sent`
   * lists the lines handed over, in order: no blank line and none after the
   * one that failed.
   */
  method TranslateLines(paragraphs: seq<string>, transform: Oracle) returns (pass: PassResult, ghost sent: seq<string>)
    ensures pass == TranslatePass(paragraphs, transform)
    ensures pass.FailedAt? ==> pass.index <= |paragraphs| && sent == NonBlank(paragraphs[..pass.index])
    ensures pass.Completed? ==> sent == NonBlank(paragraphs)
  {
    sent := [];
    var translatedParagraphs: seq<string> := [];
    for idx := 0 to |paragraphs|
      invariant TranslatePass(paragraphs[..idx], transform) == Completed(translatedParagraphs)
      invariant sent == NonBlank(paragraphs[..idx])
    {
      assert paragraphs[..idx + 1][..idx] == paragraphs[..idx];
      var paragraph := paragraphs[idx];
      if !Blank(paragraph) {
        sent := sent + [paragraph];
        var translatedParagraph := transform(paragraph);
        if Truthy(translatedParagraph) {
          translatedParagraphs := translatedParagraphs + [paragraph, translatedParagraph.value, ""];
        } else {
          TranslatePassStops(paragraphs, idx + 1, transform);
          pass := FailedAt(idx + 1);
          return;
        }
      }
    }
    assert paragraphs[..|paragraphs|] == paragraphs;
    pass := Completed(translatedParagraphs);
  }

  /** The disk the pipeline reads and writes, as a map from path to contents. */
  class Workspace {
    var files: map<string, string>

    constructor (files: map<string, string>)
      ensures this.files == files
    {
      this.files := files;
    }

    /**
     * `process_formatting`: chunks the input file, transforms the chunks in
     * order and writes the joined results to `formattedPath`, stopping at
     * the first falsy result. `sent` lists the chunks handed to the oracle.
     */
    method ProcessFormatting(inputPath: string, formattedPath: string, transform: Oracle)
      returns (report: Report, ghost sent: seq<string>)
      modifies this
      ensures (report, files) == FormatEffect(old(files), inputPath, formattedPath, transform)
      ensures inputPath !in old(files) ==> sent == []
      ensures inputPath in old(files) ==>
        var chunks := Chunks(old(files)[inputPath], DefaultMaxChunkSize);
        && (report.Failed? ==> report.index <= |chunks| && sent == chunks[..report.index])
        && (report.Saved? ==> sent == chunks)
    {
      sent := [];
      if inputPath !in files {
        report := NotFound(inputPath);
        return;
      }
      var content := files[inputPath];
      var chunks := SplitText(content, DefaultMaxChunkSize);
      var pass;
      pass, sent := FormatChunks(chunks, transform);
      match pass
      case FailedAt(k) =>
        report := Failed(k);
      case Completed(formattedChunks) =>
        files := files[formattedPath := Join(formattedChunks)];
        report := Saved(formattedPath);
    }

    /**
     * `process_translation`: translates the non-blank lines of the
     * intermediate file in order, stopping at the first falsy result; on
     * success writes the output file, then removes the intermediate file
     * unless `removeFails`. `sent` lists the lines handed to the oracle.
     */
    method ProcessTranslation(formattedPath: string, outputPath: string, transform: Oracle, removeFails: bool)
      returns (report: Report, ghost sent: seq<string>)
      modifies this
      ensures (report, files) == TranslateEffect(old(files), formattedPath, outputPath, transform, removeFails)
      ensures formattedPath !in old(files) ==> sent == []
      ensures formattedPath in old(files) ==>
        var lines := Split(old(files)[formattedPath]);
        && (report.Failed? ==> report.index <= |lines| && sent == NonBlank(lines[..report.index]))
        && (report.Saved? ==> sent == NonBlank(lines))
    {
      sent := [];
      if formattedPath !in files {
        report := NotFound(formattedPath);
        return;
      }
      var formattedContent := files[formattedPath];
      var paragraphs := Split(formattedContent);
      var pass;
      pass, sent := TranslateLines(paragraphs, transform);
      match pass
      case FailedAt(k) =>
        report := Failed(k);
      case Completed(translatedParagraphs) =>
        files := files[outputPath := Join(translatedParagraphs)];
        if !removeFails {
          files := files - {formattedPath};
        }
        report := Saved(outputPath);
    }

    /**
     * `start_processing`: warns and touches nothing when a path is empty;
     * otherwise formats, then translates unless formatting raised.
     */
    method StartProcessing(inputPath: string, formattedPath: string, outputPath: string,
                           format: Oracle, translate: Oracle, removeFails: bool)
      returns (report: RunReport)
      modifies this
      ensures (report, files)
           == Run(old(files), inputPath, formattedPath, outputPath, format, translate, removeFails)
      ensures !PathsGiven(inputPath, formattedPath, outputPath) ==> report == MissingPaths && files == old(files)
    {
      if !PathsGiven(inputPath, formattedPath, outputPath) {
        report := MissingPaths;
        return;
      }
      ghost var sent: seq<string>;
      var formatting;
      formatting, sent := ProcessFormatting(inputPath, formattedPath, format);
      if formatting.NotFound? {
        report := Ran(formatting, None);
        return;
      }
      var translation;
      translation, sent := ProcessTranslation(formattedPath, outputPath, translate, removeFails);
      report := Ran(formatting, Some(translation));
    }
  }
}
