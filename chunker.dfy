/**
 * `split_text`: packs the lines of a document into groups whose line
 * lengths add up to at most `maxChunkSize`, and emits each group joined
 * with newlines. The running length counts line characters only, never the
 * newlines that separate them.
 */
module Chunker {
  import opened Strings

  /** The `max_chunk_size` that `process_formatting` uses. */
  const DefaultMaxChunkSize: int := 2000

  /**
   * The loop state of `split_text` after some lines: the groups already
   * closed, the group being filled and its running length.
   */
  datatype Packing = Packing(closed: seq<seq<string>>, current: seq<string>, length: int)

  /**
   * One loop iteration: a line that would push the running length past the
   * maximum closes the current group (even when that group is still empty)
   * and starts a new one holding just that line.
   */
  function Step(st: Packing, line: string, maxChunkSize: int): Packing
  {
    if st.length + |line| > maxChunkSize then
      Packing(st.closed + [st.current], [line], |line|)
    else
      Packing(st.closed, st.current + [line], st.length + |line|)
  }

  /** The loop state after all of `lines`, in order. */
  function Pack(lines: seq<string>, maxChunkSize: int): Packing
    decreases |lines|
  {
    if |lines| == 0 then Packing([], [], 0)
    else Step(Pack(lines[..|lines| - 1], maxChunkSize), lines[|lines| - 1], maxChunkSize)
  }

  /** The line groups `split_text` emits: the closed ones, then the last one if it is not empty. */
  function Groups(lines: seq<string>, maxChunkSize: int): seq<seq<string>>
  {
    var st := Pack(lines, maxChunkSize);
    if |st.current| > 0 then st.closed + [st.current] else st.closed
  }

  /** What `split_text(text, maxChunkSize)` returns. */
  function Chunks(text: string, maxChunkSize: int): seq<string>
  {
    JoinEach(Groups(Split(text), maxChunkSize))
  }

  /** The loop state holds every line read so far, in order, and the true running length. */
  lemma {:induction false} PackCovers(lines: seq<string>, maxChunkSize: int)
    ensures var st := Pack(lines, maxChunkSize);
      && Flatten(st.closed) + st.current == lines
      && st.length == TotalLength(st.current)
      && (|lines| > 0 <==> st.current != [])
    decreases |lines|
  {
    if |lines| > 0 {
      var prefix, line := lines[..|lines| - 1], lines[|lines| - 1];
      assert lines == prefix + [line];
      PackCovers(prefix, maxChunkSize);
      var st0 := Pack(prefix, maxChunkSize);
      if st0.length + |line| > maxChunkSize {
        var closed := st0.closed + [st0.current];
        assert closed[..|st0.closed|] == st0.closed;
        assert [line][..0] == [];
      } else {
        var current := st0.current + [line];
        assert current[..|st0.current|] == st0.current;
      }
    }
  }

  /** Every group of two or more lines, closed or current, has line lengths summing to at most the maximum. */
  lemma {:induction false} PackBounded(lines: seq<string>, maxChunkSize: int)
    ensures var st := Pack(lines, maxChunkSize);
      && (forall i :: 0 <= i < |st.closed| && |st.closed[i]| >= 2 ==> TotalLength(st.closed[i]) <= maxChunkSize)
      && (|st.current| >= 2 ==> st.length <= maxChunkSize)
    decreases |lines|
  {
    if |lines| > 0 {
      var prefix, line := lines[..|lines| - 1], lines[|lines| - 1];
      PackBounded(prefix, maxChunkSize);
      PackCovers(prefix, maxChunkSize);
      StepBounded(Pack(prefix, maxChunkSize), line, maxChunkSize);
    }
  }

  /** One loop iteration keeps every group of two or more lines within the maximum. */
  lemma StepBounded(st: Packing, line: string, maxChunkSize: int)
    requires st.length == TotalLength(st.current)
    requires forall i :: 0 <= i < |st.closed| && |st.closed[i]| >= 2 ==> TotalLength(st.closed[i]) <= maxChunkSize
    requires |st.current| >= 2 ==> st.length <= maxChunkSize
    ensures var st' := Step(st, line, maxChunkSize);
      && (forall i :: 0 <= i < |st'.closed| && |st'.closed[i]| >= 2 ==> TotalLength(st'.closed[i]) <= maxChunkSize)
      && (|st'.current| >= 2 ==> st'.length <= maxChunkSize)
  {
    if st.length + |line| > maxChunkSize {
      var closed := st.closed + [st.current];
      forall i | 0 <= i < |closed| && |closed[i]| >= 2
        ensures TotalLength(closed[i]) <= maxChunkSize
      {
        if i < |st.closed| {
          assert closed[i] == st.closed[i];
        }
      }
    }
  }

  /**
   * Only the first closed group can be empty, and it is empty exactly when
   * the first line alone is longer than the maximum.
   */
  lemma {:induction false} PackFirstGroup(lines: seq<string>, maxChunkSize: int)
    ensures var st := Pack(lines, maxChunkSize);
      && (forall i :: 0 < i < |st.closed| ==> st.closed[i] != [])
      && ((|st.closed| > 0 && st.closed[0] == []) <==> (|lines| > 0 && |lines[0]| > maxChunkSize))
    decreases |lines|
  {
    if |lines| > 0 {
      var prefix, line := lines[..|lines| - 1], lines[|lines| - 1];
      PackFirstGroup(prefix, maxChunkSize);
      PackCovers(prefix, maxChunkSize);
      var st0 := Pack(prefix, maxChunkSize);
      if |prefix| > 0 {
        assert prefix[0] == lines[0];
      }
      if st0.length + |line| > maxChunkSize {
        var closed := st0.closed + [st0.current];
        assert Pack(lines, maxChunkSize).closed == closed;
        if |st0.closed| > 0 {
          assert closed[0] == st0.closed[0];
        }
        forall i | 0 < i < |closed| ensures closed[i] != [] {
          if i < |st0.closed| {
            assert closed[i] == st0.closed[i];
          }
        }
      }
    }
  }

  /** The emitted line groups, in order, are exactly the lines of the text, and the last group is never empty. */
  lemma GroupsCover(lines: seq<string>, maxChunkSize: int)
    requires |lines| > 0
    ensures var gs := Groups(lines, maxChunkSize);
      |gs| >= 1 && Flatten(gs) == lines && gs[|gs| - 1] != []
  {
    PackCovers(lines, maxChunkSize);
    var st := Pack(lines, maxChunkSize);
    var gs := st.closed + [st.current];
    assert gs[..|st.closed|] == st.closed;
  }

  /**
   * Only the first emitted group can be empty, and it is exactly when the
   * first line alone exceeds the maximum.
   */
  lemma GroupsFirst(lines: seq<string>, maxChunkSize: int)
    requires |lines| > 0
    ensures var gs := Groups(lines, maxChunkSize);
      && |gs| >= 1
      && (forall i :: 0 < i < |gs| ==> gs[i] != [])
      && (gs[0] == [] <==> |lines[0]| > maxChunkSize)
  {
    PackCovers(lines, maxChunkSize);
    PackFirstGroup(lines, maxChunkSize);
  }

  /** Every emitted group of two or more lines has line lengths summing to at most the maximum. */
  lemma GroupsBounded(lines: seq<string>, maxChunkSize: int)
    ensures var gs := Groups(lines, maxChunkSize);
      forall i :: 0 <= i < |gs| && |gs[i]| >= 2 ==> TotalLength(gs[i]) <= maxChunkSize
  {
    PackCovers(lines, maxChunkSize);
    PackBounded(lines, maxChunkSize);
  }

  lemma DropEmptyGroup(gs: seq<seq<string>>)
    requires |gs| >= 1 && gs[0] == []
    ensures Flatten(gs) == Flatten(gs[1..])
    ensures JoinEach(gs) == [""] + JoinEach(gs[1..])
  {
    var rest := gs[1..];
    var first: seq<seq<string>> := [[]];
    assert gs == first + rest;
    FlattenAppend(first, rest);
    JoinEachAppend(first, rest);
    assert first[..0] == [];
    assert Flatten(first) == [];
    assert JoinEach(first) == [""];
  }

  lemma JoinLeadingEmpty(tail: seq<string>)
    requires |tail| > 0
    ensures Join([""] + tail) == "\n" + Join(tail)
  {
    JoinAppend([""], tail);
    assert Join([""]) == "";
    assert "" + "\n" + Join(tail) == "\n" + Join(tail);
  }

  lemma NonEmptyAfterFirst(gs: seq<seq<string>>)
    requires |gs| >= 1
    requires forall i :: 0 < i < |gs| ==> gs[i] != []
    ensures forall i :: 0 <= i < |gs[1..]| ==> gs[1..][i] != []
  {
    forall i | 0 <= i < |gs[1..]| ensures gs[1..][i] != [] { assert gs[1..][i] == gs[i + 1]; }
  }

  /** An empty first group adds one leading newline when the chunks are joined. */
  lemma JoinAfterEmptyGroup(gs: seq<seq<string>>)
    requires |gs| >= 2 && gs[0] == []
    requires forall i :: 0 < i < |gs| ==> gs[i] != []
    ensures Join(JoinEach(gs)) == "\n" + Join(Flatten(gs))
  {
    DropEmptyGroup(gs);
    NonEmptyAfterFirst(gs);
    JoinFlatten(gs[1..]);
    JoinLeadingEmpty(JoinEach(gs[1..]));
  }

  /**
   * `split_text` always returns at least one chunk, and joining the chunks
   * with newlines gives the text back, with one extra leading newline when
   * the first line alone is longer than the maximum.
   */
  lemma ChunksRoundTrip(text: string, maxChunkSize: int)
    ensures |Chunks(text, maxChunkSize)| >= 1
    ensures Join(Chunks(text, maxChunkSize))
         == if |Split(text)[0]| > maxChunkSize then "\n" + text else text
  {
    var lines := Split(text);
    var gs := Groups(lines, maxChunkSize);
    GroupsCover(lines, maxChunkSize);
    GroupsFirst(lines, maxChunkSize);
    JoinGroups(gs);
    JoinSplit(text);
  }

  /**
   * Joining the joined groups gives the joined lines, with one extra leading
   * newline when the first group is empty.
   */
  lemma JoinGroups(gs: seq<seq<string>>)
    requires |gs| >= 1 && gs[|gs| - 1] != []
    requires forall i :: 0 < i < |gs| ==> gs[i] != []
    ensures Join(JoinEach(gs)) == if gs[0] == [] then "\n" + Join(Flatten(gs)) else Join(Flatten(gs))
  {
    if gs[0] == [] {
      JoinAfterEmptyGroup(gs);
    } else {
      JoinFlatten(gs);
    }
  }

  /** A line no longer than the maximum fits whole; fewer line characters than the maximum means one chunk. */
  lemma {:induction false} PackFits(lines: seq<string>, maxChunkSize: int)
    requires TotalLength(lines) <= maxChunkSize
    ensures Pack(lines, maxChunkSize) == Packing([], lines, TotalLength(lines))
    decreases |lines|
  {
    if |lines| > 0 {
      var prefix, line := lines[..|lines| - 1], lines[|lines| - 1];
      assert TotalLength(lines) == TotalLength(prefix) + |line|;
      PackFits(prefix, maxChunkSize);
      assert Pack(lines, maxChunkSize) == Step(Packing([], prefix, TotalLength(prefix)), line, maxChunkSize);
      LastSplitOff(lines);
    }
  }

  /** A text no longer than the maximum comes back as the single chunk `[text]`. */
  lemma ShortTextIsOneChunk(text: string, maxChunkSize: int)
    requires |text| <= maxChunkSize
    ensures Chunks(text, maxChunkSize) == [text]
  {
    var lines := Split(text);
    JoinSplit(text);
    assert TotalLength(lines) <= |text|;
    PackFits(lines, maxChunkSize);
    var gs: seq<seq<string>> := [lines];
    assert Groups(lines, maxChunkSize) == gs;
    assert gs[..0] == [];
    assert JoinEach(gs) == [Join(lines)];
  }

  /**
   * A single newline-free line longer than the maximum comes back as an
   * empty chunk followed by the line itself, not as one chunk.
   */
  lemma OversizeLineChunks(line: string, maxChunkSize: int)
    requires '\n' !in line && |line| > maxChunkSize
    ensures Chunks(line, maxChunkSize) == ["", line]
  {
    SplitJoin([line]);
    assert Split(line) == [line];
    assert [line][..0] == [];
    assert Pack([line], maxChunkSize) == Packing([[]], [line], |line|);
    var gs: seq<seq<string>> := [[], [line]];
    assert Groups([line], maxChunkSize) == gs;
    assert gs[..1] == [[]] && gs[..1][..0] == [];
    assert JoinEach(gs) == [Join([]), Join([line])];
  }

  /** The empty text comes back as one empty chunk. */
  lemma EmptyTextChunks(maxChunkSize: int)
    requires maxChunkSize >= 0
    ensures Chunks("", maxChunkSize) == [""]
  {
    ShortTextIsOneChunk("", maxChunkSize);
  }

  /**
   * An empty chunk is not confined to the front: an oversize line followed
   * by a newline gives an empty chunk at both ends.
   */
  lemma OversizeLineThenNewline(line: string, maxChunkSize: int)
    requires '\n' !in line && 0 <= maxChunkSize < |line|
    ensures Chunks(line + "\n", maxChunkSize) == ["", line, ""]
  {
    SplitLineNewline(line);
    OversizeThenEmptyGroups(line, maxChunkSize);
    JoinEachOversizeThenEmpty(line);
  }

  lemma SplitLineNewline(line: string)
    requires '\n' !in line
    ensures Split(line + "\n") == [line, ""]
  {
    SplitJoin([line]);
    assert Join([line]) == line;
    SplitNewline(line);
    assert [line] + [""] == [line, ""];
  }

  lemma JoinEachOversizeThenEmpty(line: string)
    ensures JoinEach([[], [line], [""]]) == ["", line, ""]
  {
    var gs: seq<seq<string>> := [[], [line], [""]];
    assert gs[..2] == [[], [line]] && gs[..2][..1] == [[]] && gs[..2][..1][..0] == [];
    assert JoinEach(gs[..2][..1]) == [""];
    assert JoinEach(gs[..2]) == ["", line];
  }

  lemma OversizeThenEmptyGroups(line: string, maxChunkSize: int)
    requires 0 <= maxChunkSize < |line|
    ensures Groups([line, ""], maxChunkSize) == [[], [line], [""]]
  {
    var lines: seq<string> := [line, ""];
    assert lines[..1] == [line] && [line][..0] == [];
    assert Pack(lines[..1], maxChunkSize) == Packing([[]], [line], |line|);
    assert Pack(lines, maxChunkSize) == Packing([[], [line]], [""], 0);
  }

  /**
   * `split_text`, line by line: the result is the chunk list of the
   * specification, it is never empty, and it joins back to the text (with
   * the extra leading newline of an oversize first line).
   */
  method SplitText(text: string, maxChunkSize: int) returns (chunks: seq<string>)
    ensures chunks == Chunks(text, maxChunkSize)
    ensures |chunks| >= 1
    ensures Join(chunks) == if |Split(text)[0]| > maxChunkSize then "\n" + text else text
  {
    var lines := Split(text);
    chunks := [];
    var current: seq<string> := [];
    var currentLength := 0;
    ghost var closed: seq<seq<string>> := [];
    for i := 0 to |lines|
      invariant Pack(lines[..i], maxChunkSize) == Packing(closed, current, currentLength)
      invariant chunks == JoinEach(closed)
    {
      assert lines[..i + 1][..i] == lines[..i];
      var paragraph := lines[i];
      if currentLength + |paragraph| > maxChunkSize {
        chunks := chunks + [Join(current)];
        closed := closed + [current];
        current := [paragraph];
        currentLength := |paragraph|;
      } else {
        current := current + [paragraph];
        currentLength := currentLength + |paragraph|;
      }
    }
    assert lines[..|lines|] == lines;
    if |current| > 0 {
      chunks := chunks + [Join(current)];
    }
    ChunksRoundTrip(text, maxChunkSize);
  }
}
