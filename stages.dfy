/**
 * The two oracle loops of the pipeline, on lists: the formatting pass over
 * the chunks and the translation pass over the lines of the formatted
 * text. Each stops at the first oracle result Python treats as false.
 */
module Stages {
  import opened Wrappers
  import opened Strings

  /**
   * The remote model call, as an opaque function of its payload. `None` is
   * a call that raised (the wrappers return `None`); the `.strip()` of the
   * reply is part of the oracle.
   */
  type Oracle = string -> Option<string>

  /** Python's truth test on the oracle's result: `None` and `""` are false. */
  predicate Truthy(r: Option<string>)
  {
    r.Some? && r.value != ""
  }

  /** Either every unit went through, with the collected output, or the 1-based index of the unit that failed. */
  datatype PassResult = Completed(output: seq<string>) | FailedAt(index: nat)

  /**
   * The loop of `process_formatting` over `chunks`: each truthy result is
   * appended; the first falsy one ends the loop with its 1-based index.
   */
  function FormatPass(chunks: seq<string>, transform: Oracle): PassResult
    decreases |chunks|
  {
    if |chunks| == 0 then Completed([])
    else
      match FormatPass(chunks[..|chunks| - 1], transform)
      case FailedAt(k) => FailedAt(k)
      case Completed(results) =>
        var r := transform(chunks[|chunks| - 1]);
        if Truthy(r) then Completed(results + [r.value]) else FailedAt(|chunks|)
  }

  /** The lines that are not blank, in order. */
  function NonBlank(lines: seq<string>): (r: seq<string>)
    ensures forall x :: x in r <==> x in lines && !Blank(x)
    ensures |r| <= |lines|
    decreases |lines|
  {
    if |lines| == 0 then []
    else
      var rest := NonBlank(lines[..|lines| - 1]);
      var p := lines[|lines| - 1];
      assert lines == lines[..|lines| - 1] + [p];
      if Blank(p) then rest else rest + [p]
  }

  /**
   * `buffer` holds one triple per line of `kept`, in order: the line, the
   * oracle's result for it and an empty line.
   */
  predicate Triples(buffer: seq<string>, kept: seq<string>, transform: Oracle)
  {
    |buffer| == 3 * |kept| &&
    forall i :: 0 <= i < |kept| ==>
      buffer[3 * i] == kept[i] &&
      transform(kept[i]) == Some(buffer[3 * i + 1]) &&
      buffer[3 * i + 2] == ""
  }

  /**
   * The loop of `process_translation` over `lines`: a blank line is
   * skipped; a non-blank line `p` whose result `r` is truthy appends
   * `p`, `r` and `""`; the first falsy result ends the loop with the
   * line's 1-based index, blank lines included in the count.
   */
  function TranslatePass(lines: seq<string>, transform: Oracle): PassResult
    decreases |lines|
  {
    if |lines| == 0 then Completed([])
    else
      match TranslatePass(lines[..|lines| - 1], transform)
      case FailedAt(k) => FailedAt(k)
      case Completed(buffer) =>
        var p := lines[|lines| - 1];
        if Blank(p) then Completed(buffer)
        else
          var r := transform(p);
          if Truthy(r) then Completed(buffer + [p, r.value, ""]) else FailedAt(|lines|)
  }

  /**
   * The formatting pass completes exactly when every chunk's result is
   * truthy, and then holds those results in chunk order; otherwise it
   * reports the 1-based index of the first chunk whose result is falsy.
   */
  lemma {:induction false} FormatPassMeaning(chunks: seq<string>, transform: Oracle)
    ensures var p := FormatPass(chunks, transform);
      && (p.Completed? <==> forall i :: 0 <= i < |chunks| ==> Truthy(transform(chunks[i])))
      && (p.Completed? ==>
            |p.output| == |chunks| &&
            forall i :: 0 <= i < |chunks| ==> transform(chunks[i]) == Some(p.output[i]))
      && (p.FailedAt? ==>
            1 <= p.index <= |chunks| &&
            !Truthy(transform(chunks[p.index - 1])) &&
            forall j :: 0 <= j < p.index - 1 ==> Truthy(transform(chunks[j])))
    decreases |chunks|
  {
    if |chunks| > 0 {
      var front := chunks[..|chunks| - 1];
      FormatPassMeaning(front, transform);
      assert forall i :: 0 <= i < |front| ==> front[i] == chunks[i];
    }
  }

  /** Once the formatting pass has failed on a prefix, the chunks after it change nothing. */
  lemma {:induction false} FormatPassStops(chunks: seq<string>, n: nat, transform: Oracle)
    requires n <= |chunks|
    requires FormatPass(chunks[..n], transform).FailedAt?
    ensures FormatPass(chunks, transform) == FormatPass(chunks[..n], transform)
    decreases |chunks| - n
  {
    if n < |chunks| {
      var front := chunks[..|chunks| - 1];
      assert front[..n] == chunks[..n];
      FormatPassStops(front, n, transform);
    } else {
      assert chunks[..n] == chunks;
    }
  }

  /**
   * The translation pass completes exactly when every non-blank line's
   * result is truthy; its buffer then holds, for the i-th non-blank line
   * `p`, the three entries `p`, its result and `""`, and nothing for blank
   * lines. Otherwise it reports the 1-based index of the first non-blank
   * line whose result is falsy.
   */
  lemma TranslatePassMeaning(lines: seq<string>, transform: Oracle)
    ensures var p := TranslatePass(lines, transform);
      && (p.Completed? <==>
            forall i :: 0 <= i < |lines| && !Blank(lines[i]) ==> Truthy(transform(lines[i])))
      && (p.Completed? ==> Triples(p.output, NonBlank(lines), transform))
      && (p.FailedAt? ==>
            1 <= p.index <= |lines| &&
            !Blank(lines[p.index - 1]) &&
            !Truthy(transform(lines[p.index - 1])) &&
            forall j :: 0 <= j < p.index - 1 && !Blank(lines[j]) ==> Truthy(transform(lines[j])))
  {
    TranslatePassFailure(lines, transform);
    TranslatePassLayout(lines, transform);
  }

  /**
   * A failed translation pass names a non-blank line with a falsy result,
   * every earlier non-blank line having had a truthy one; a completed pass
   * had a truthy result for every non-blank line.
   */
  lemma {:induction false} TranslatePassFailure(lines: seq<string>, transform: Oracle)
    ensures var p := TranslatePass(lines, transform);
      && (p.Completed? ==> forall i :: 0 <= i < |lines| && !Blank(lines[i]) ==> Truthy(transform(lines[i])))
      && (p.FailedAt? ==>
            1 <= p.index <= |lines| &&
            !Blank(lines[p.index - 1]) &&
            !Truthy(transform(lines[p.index - 1])) &&
            forall j :: 0 <= j < p.index - 1 && !Blank(lines[j]) ==> Truthy(transform(lines[j])))
    decreases |lines|
  {
    if |lines| > 0 {
      var front := lines[..|lines| - 1];
      TranslatePassFailure(front, transform);
      assert forall i :: 0 <= i < |front| ==> front[i] == lines[i];
    }
  }

  /** A completed translation pass holds one `p, result, ""` triple per non-blank line, in order. */
  lemma {:induction false} TranslatePassLayout(lines: seq<string>, transform: Oracle)
    ensures var p := TranslatePass(lines, transform);
      p.Completed? ==> Triples(p.output, NonBlank(lines), transform)
    decreases |lines|
  {
    if |lines| > 0 {
      var front := lines[..|lines| - 1];
      var p := lines[|lines| - 1];
      assert lines == front + [p];
      TranslatePassLayout(front, transform);
      if TranslatePass(front, transform).Completed? && !Blank(p) && Truthy(transform(p)) {
        TranslateStep(front, p, transform);
      }
    }
  }

  lemma TranslateStep(front: seq<string>, p: string, transform: Oracle)
    requires !Blank(p) && Truthy(transform(p))
    requires var q := TranslatePass(front, transform);
      q.Completed? && Triples(q.output, NonBlank(front), transform)
    ensures var q := TranslatePass(front + [p], transform);
      q.Completed? && Triples(q.output, NonBlank(front + [p]), transform)
  {
    var lines := front + [p];
    assert lines[..|lines| - 1] == front;
    var buffer := TranslatePass(front, transform).output;
    var kept := NonBlank(front);
    assert NonBlank(lines) == kept + [p];
    assert TranslatePass(lines, transform) == Completed(buffer + [p, transform(p).value, ""]);
    TriplesSnoc(buffer, kept, p, transform(p).value, transform);
  }

  /** Appending a line's triple to the buffer keeps it in step with the kept lines. */
  lemma TriplesSnoc(buffer: seq<string>, kept: seq<string>, p: string, r: string, transform: Oracle)
    requires Triples(buffer, kept, transform) && transform(p) == Some(r)
    ensures Triples(buffer + [p, r, ""], kept + [p], transform)
  {
    var buffer', kept' := buffer + [p, r, ""], kept + [p];
    forall i | 0 <= i < |kept'|
      ensures buffer'[3 * i] == kept'[i]
      ensures transform(kept'[i]) == Some(buffer'[3 * i + 1])
      ensures buffer'[3 * i + 2] == ""
    {
      if i < |kept| {
        assert 3 * i + 2 < |buffer|;
        assert buffer'[3 * i] == buffer[3 * i];
        assert buffer'[3 * i + 1] == buffer[3 * i + 1];
        assert buffer'[3 * i + 2] == buffer[3 * i + 2];
      } else {
        assert 3 * i == |buffer|;
      }
    }
  }

  /** Once the translation pass has failed on a prefix, the lines after it change nothing. */
  lemma {:induction false} TranslatePassStops(lines: seq<string>, n: nat, transform: Oracle)
    requires n <= |lines|
    requires TranslatePass(lines[..n], transform).FailedAt?
    ensures TranslatePass(lines, transform) == TranslatePass(lines[..n], transform)
    decreases |lines| - n
  {
    if n < |lines| {
      var front := lines[..|lines| - 1];
      assert front[..n] == lines[..n];
      TranslatePassStops(front, n, transform);
    } else {
      assert lines[..n] == lines;
    }
  }
}
