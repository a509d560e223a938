/**
 * The default output paths `select_input_file` proposes: the chosen path
 * split by `os.path.splitext` (POSIX rules), with a label inserted before
 * the extension.
 */
module Paths {

  const IntermediateLabel: string := " intermediate"
  const TranscriptLabel: string := " Transcript"

  /** Index of the last `c` among the first `n` characters of `s`, or -1 when there is none. */
  function LastBelow(s: string, c: char, n: nat): (i: int)
    requires n <= |s|
    ensures -1 <= i < n
    ensures i >= 0 ==> s[i] == c
    ensures forall j :: i < j < n ==> s[j] != c
  {
    if n == 0 then -1
    else if s[n - 1] == c then n - 1
    else LastBelow(s, c, n - 1)
  }

  /** `s.rfind(c)`: index of the last `c` in `s`, or -1 when `s` holds none. */
  function RFind(s: string, c: char): int
  {
    LastBelow(s, c, |s|)
  }

  /** Every character of `s` from index `lo` up to, not including, `hi` is a '.'. */
  predicate DotsBetween(s: string, lo: int, hi: int)
    requires 0 <= lo && hi <= |s|
  {
    forall j :: lo <= j < hi ==> s[j] == '.'
  }

  /** An extension: empty, or a '.' followed by characters that are neither '.' nor '/'. */
  predicate IsExtension(e: string)
  {
    e == [] || (e[0] == '.' && forall j :: 0 < j < |e| ==> e[j] != '.' && e[j] != '/')
  }

  /**
   * `os.path.splitext` for '/'-separated paths: the extension starts at the
   * last '.' of the last path component, unless everything in that
   * component before the dot is dots too (so ".bashrc" has none).
   */
  function SplitExt(path: string): (r: (string, string))
    ensures r.0 + r.1 == path
  {
    var sep := RFind(path, '/');
    var dot := RFind(path, '.');
    if dot > sep && !DotsBetween(path, sep + 1, dot) then
      (path[..dot], path[dot..])
    else
      (path, "")
  }

  /** What `SplitExt` splits off is an extension: empty, or one dot and then no dot or '/'. */
  lemma SplitExtGivesExtension(path: string)
    ensures IsExtension(SplitExt(path).1)
  {
    var sep := RFind(path, '/');
    var dot := RFind(path, '.');
    if dot > sep && !DotsBetween(path, sep + 1, dot) {
      var e := path[dot..];
      forall j | 0 < j < |e| ensures e[j] != '.' && e[j] != '/' {
        assert e[j] == path[dot + j];
      }
    }
  }

  /**
   * Inserting a label free of '/' and '.' between a path's base and its
   * extension leaves the extension as it was: the label lands at the end of
   * the new path's base.
   */
  lemma LabelKeepsExtension(path: string, tag: string)
    requires tag != [] && '/' !in tag && '.' !in tag
    ensures var (base, ext) := SplitExt(path);
      SplitExt(base + tag + ext) == (base + tag, ext)
  {
    var (base, ext) := SplitExt(path);
    if ext != [] {
      LabelBeforeExtension(path, base, ext, tag);
    } else {
      LabelAfterPlainPath(path, tag);
    }
  }

  /** `RFind` is the one index its postconditions describe. */
  lemma RFindIs(s: string, c: char, k: int)
    requires -1 <= k < |s|
    requires k >= 0 ==> s[k] == c
    requires forall j :: k < j < |s| ==> s[j] != c
    ensures RFind(s, c) == k
  {
  }

  /** Text free of `c` appended after `a` does not move the last `c`. */
  lemma RFindSkips(a: string, b: string, c: char)
    requires c !in b
    ensures RFind(a + b, c) == RFind(a, c)
  {
    var k := RFind(a, c);
    var q := a + b;
    forall j | k < j < |q| ensures q[j] != c {
      if j < |a| {
        assert q[j] == a[j];
      } else {
        assert q[j] == b[j - |a|];
      }
    }
    if k >= 0 {
      assert q[k] == a[k];
    }
    RFindIs(q, c, k);
  }

  /** Where the last '/' and the last '.' of `base + tag + ext` fall. */
  lemma LabelledSeparators(path: string, base: string, ext: string, tag: string)
    requires tag != [] && '/' !in tag && '.' !in tag
    requires SplitExt(path) == (base, ext) && ext != []
    ensures RFind(base + tag + ext, '/') == RFind(path, '/')
    ensures RFind(base + tag + ext, '.') == |base| + |tag|
    ensures RFind(path, '.') == |base| > RFind(path, '/')
  {
    SplitExtGivesExtension(path);
    assert '/' !in ext by {
      forall j | 0 <= j < |ext| ensures ext[j] != '/' { }
    }
    var q := base + tag + ext;
    assert q == base + (tag + ext);
    RFindSkips(base, ext, '/');
    RFindSkips(base, tag + ext, '/');
    var dot' := |base| + |tag|;
    forall j | dot' <= j < |q| ensures q[j] == ext[j - dot'] { }
    RFindIs(q, '.', dot');
  }

  /** `SplitExt` cuts at the last dot when it follows the last '/' and a non-dot `q[k]` of the same component. */
  lemma SplitExtCuts(q: string, i: nat, k: nat)
    requires RFind(q, '/') < k < i == RFind(q, '.')
    requires q[k] != '.'
    ensures SplitExt(q) == (q[..i], q[i..])
  {
    assert !DotsBetween(q, RFind(q, '/') + 1, i);
  }

  lemma LabelBeforeExtension(path: string, base: string, ext: string, tag: string)
    requires tag != [] && '/' !in tag && '.' !in tag
    requires SplitExt(path) == (base, ext) && ext != []
    ensures SplitExt(base + tag + ext) == (base + tag, ext)
  {
    LabelledSeparators(path, base, ext, tag);
    var q := base + tag + ext;
    var dot' := |base| + |tag|;
    assert q[|base|] == tag[0] != '.';
    SplitExtCuts(q, dot', |base|);
    assert q[..dot'] == base + tag;
    assert q[dot'..] == ext;
  }

  lemma LabelAfterPlainPath(path: string, tag: string)
    requires tag != [] && '/' !in tag && '.' !in tag
    requires SplitExt(path) == (path, "")
    ensures SplitExt(path + tag) == (path + tag, "")
  {
    var q := path + tag;
    var sep := RFind(path, '/');
    var dot := RFind(path, '.');
    RFindSkips(path, tag, '/');
    RFindSkips(path, tag, '.');
    if dot > sep {
      assert DotsBetween(path, sep + 1, dot);
      forall j | sep + 1 <= j < dot ensures q[j] == '.' {
        assert q[j] == path[j];
      }
    }
  }

  /**
   * The intermediate and transcript paths proposed for `path`: the labels
   * " intermediate" and " Transcript" go right before the extension. Each
   * is its label's length longer than `path`, so the two differ from each
   * other and from `path`.
   */
  function DefaultPaths(path: string): (r: (string, string))
    ensures |r.0| == |path| + |IntermediateLabel| && |r.1| == |path| + |TranscriptLabel|
    ensures r.0 != r.1 && r.0 != path && r.1 != path
  {
    var (base, ext) := SplitExt(path);
    (base + IntermediateLabel + ext, base + TranscriptLabel + ext)
  }

  /** Neither label holds a '/' or a '.'. */
  lemma LabelsArePlain()
    ensures IntermediateLabel != [] && '/' !in IntermediateLabel && '.' !in IntermediateLabel
    ensures TranscriptLabel != [] && '/' !in TranscriptLabel && '.' !in TranscriptLabel
  {
  }

  /** Both default paths keep the extension of `path` and end their base with their label. */
  lemma DefaultPathsKeepExtension(path: string)
    ensures var (base, ext) := SplitExt(path);
      && SplitExt(DefaultPaths(path).0) == (base + IntermediateLabel, ext)
      && SplitExt(DefaultPaths(path).1) == (base + TranscriptLabel, ext)
  {
    LabelsArePlain();
    var (base, ext) := SplitExt(path);
    var (intermediate, transcript) := DefaultPaths(path);
    assert SplitExt(intermediate) == (base + IntermediateLabel, ext) by {
      assert intermediate == base + IntermediateLabel + ext;
      LabelKeepsExtension(path, IntermediateLabel);
    }
    assert SplitExt(transcript) == (base + TranscriptLabel, ext) by {
      assert transcript == base + TranscriptLabel + ext;
      LabelKeepsExtension(path, TranscriptLabel);
    }
  }

  /** The three path fields of the window. */
  datatype Entries = Entries(input: string, intermediate: string, transcript: string)

  /**
   * `select_input_file` after the dialog returned `chosen`: the input field
   * always shows `chosen`; the other two are replaced by the defaults only
   * when something was chosen, and are then non-empty and pairwise distinct
   * from each other and the input.
   */
  function SelectInputFile(chosen: string, entries: Entries): (r: Entries)
    ensures r.input == chosen
    ensures chosen == "" ==> r.intermediate == entries.intermediate && r.transcript == entries.transcript
    ensures chosen != "" ==>
      && r.intermediate != "" && r.transcript != ""
      && r.input != r.intermediate && r.input != r.transcript && r.intermediate != r.transcript
      && (r.intermediate, r.transcript) == DefaultPaths(chosen)
  {
    if chosen == "" then entries.(input := chosen)
    else
      var (intermediate, transcript) := DefaultPaths(chosen);
      Entries(chosen, intermediate, transcript)
  }
}
