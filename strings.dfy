/**
 * The three pieces of Python's `str` behaviour the pipeline relies on:
 * `text.split('\n')`, `"\n".join(parts)` and the emptiness test
 * `not line.strip()`. Strings are `seq<char>`.
 */
module Strings {

  /** Sum of the lengths of `parts`; the separators a join would add are not counted. */
  function TotalLength(parts: seq<string>): nat
    decreases |parts|
  {
    if |parts| == 0 then 0 else TotalLength(parts[..|parts| - 1]) + |parts[|parts| - 1]|
  }

  /**
   * `s.split('\n')`: the pieces between newlines, in order. There is always
   * at least one piece (`"".split('\n') == [""]`).
   */
  function Split(s: string): (r: seq<string>)
    ensures |r| >= 1
    decreases |s|
  {
    if |s| == 0 then [""]
    else
      var init := Split(s[..|s| - 1]);
      var c := s[|s| - 1];
      if c == '\n' then init + [""]
      else init[..|init| - 1] + [init[|init| - 1] + [c]]
  }

  /** No piece of a split holds a newline. */
  lemma {:induction false} SplitPiecesHaveNoNewline(s: string)
    ensures forall i :: 0 <= i < |Split(s)| ==> '\n' !in Split(s)[i]
    decreases |s|
  {
    if |s| > 0 {
      var t, c := s[..|s| - 1], s[|s| - 1];
      SplitPiecesHaveNoNewline(t);
      var init := Split(t);
      if c != '\n' {
        var last := init[|init| - 1] + [c];
        assert '\n' !in init[|init| - 1];
        assert '\n' !in last;
        forall i | 0 <= i < |Split(s)| ensures '\n' !in Split(s)[i] {
          if i < |init| - 1 {
            assert Split(s)[i] == init[i];
          }
        }
      } else {
        forall i | 0 <= i < |Split(s)| ensures '\n' !in Split(s)[i] {
          if i < |init| {
            assert Split(s)[i] == init[i];
          }
        }
      }
    }
  }

  /** `"\n".join(parts)`: one newline between neighbouring parts, none at either end. */
  function Join(parts: seq<string>): (r: string)
    ensures |parts| > 0 ==> |r| == TotalLength(parts) + |parts| - 1
    decreases |parts|
  {
    if |parts| == 0 then ""
    else if |parts| == 1 then parts[0]
    else Join(parts[..|parts| - 1]) + "\n" + parts[|parts| - 1]
  }

  /** The concatenation of a sequence of line groups, in order. */
  function Flatten(groups: seq<seq<string>>): seq<string>
    decreases |groups|
  {
    if |groups| == 0 then [] else Flatten(groups[..|groups| - 1]) + groups[|groups| - 1]
  }

  /** Each group joined with newlines: `["\n".join(g) for g in groups]`. */
  function JoinEach(groups: seq<seq<string>>): (r: seq<string>)
    ensures |r| == |groups|
    decreases |groups|
  {
    if |groups| == 0 then [] else JoinEach(groups[..|groups| - 1]) + [Join(groups[|groups| - 1])]
  }

  /**
   * The characters Python 3's argument-less `str.strip()` removes: the code
   * points for which `str.isspace()` holds.
   */
  predicate IsSpace(c: char)
  {
    var n := c as int;
    (0x09 <= n <= 0x0D) || (0x1C <= n <= 0x20) || n == 0x85 || n == 0xA0 || n == 0x1680
    || (0x2000 <= n <= 0x200A) || n == 0x2028 || n == 0x2029 || n == 0x202F
    || n == 0x205F || n == 0x3000
  }

  /** `not s.strip()`: the string is empty or holds only whitespace. */
  predicate Blank(s: string)
  {
    forall i :: 0 <= i < |s| ==> IsSpace(s[i])
  }

  lemma JoinSnoc(parts: seq<string>, x: string)
    requires |parts| > 0
    ensures Join(parts + [x]) == Join(parts) + "\n" + x
  {
    assert (parts + [x])[..|parts|] == parts;
  }

  /** Joining two non-empty lists of parts puts exactly one newline between them. */
  lemma {:induction false} JoinAppend(a: seq<string>, b: seq<string>)
    requires |a| > 0 && |b| > 0
    ensures Join(a + b) == Join(a) + "\n" + Join(b)
    decreases |b|
  {
    if |b| == 1 {
      JoinSnoc(a, b[0]);
    } else {
      var front, last := b[..|b| - 1], b[|b| - 1];
      assert b == front + [last];
      assert a + b == (a + front) + [last];
      JoinAppend(a, front);
      JoinSnoc(a + front, last);
      JoinSnoc(front, last);
    }
  }

  /** Splitting on newlines and joining with newlines gives the text back. */
  lemma {:induction false} JoinSplit(s: string)
    ensures Join(Split(s)) == s
    decreases |s|
  {
    if |s| > 0 {
      var t, c := s[..|s| - 1], s[|s| - 1];
      LastSplitOff(s);
      var init := Split(t);
      JoinSplit(t);
      if c == '\n' {
        JoinSnoc(init, "");
        assert t + "\n" + "" == s;
      } else {
        var front, last := init[..|init| - 1], init[|init| - 1];
        assert Split(s) == front + [last + [c]];
        if |init| == 1 {
          assert Join(init) == last;
          assert Join(Split(s)) == last + [c];
        } else {
          LastSplitOff(init);
          JoinSnoc(front, last);
          JoinSnoc(front, last + [c]);
          Associative(Join(front) + "\n", last, [c]);
        }
      }
    }
  }

  lemma SplitSnoc(t: string, c: char)
    requires c != '\n'
    ensures var r := Split(t);
      Split(t + [c]) == r[..|r| - 1] + [r[|r| - 1] + [c]]
  {
    assert (t + [c])[..|t|] == t;
  }

  /** Appending newline-free text extends the last piece of the split. */
  lemma {:induction false} SplitExtend(s: string, x: string)
    requires '\n' !in x
    ensures var r := Split(s);
      Split(s + x) == r[..|r| - 1] + [r[|r| - 1] + x]
    decreases |x|
  {
    var r := Split(s);
    var front, last := r[..|r| - 1], r[|r| - 1];
    if |x| == 0 {
      assert s + x == s;
      assert last + x == last;
      assert r == front + [last];
    } else {
      var x', c := x[..|x| - 1], x[|x| - 1];
      assert x == x' + [c];
      assert c in x;
      assert forall ch :: ch in x' ==> ch in x;
      SplitExtend(s, x');
      SplitExtendStep(s, x', c);
    }
  }

  lemma SplitExtendStep(s: string, x': string, c: char)
    requires c != '\n'
    requires var r := Split(s); Split(s + x') == r[..|r| - 1] + [r[|r| - 1] + x']
    ensures var r := Split(s); Split(s + (x' + [c])) == r[..|r| - 1] + [r[|r| - 1] + (x' + [c])]
  {
    var r := Split(s);
    var front, last := r[..|r| - 1], r[|r| - 1];
    var t := s + x';
    SplitSnoc(t, c);
    Associative(s, x', [c]);
    ExtendLast(front, last + x', c);
    Associative(last, x', [c]);
  }

  lemma Associative(a: string, b: string, c: string)
    ensures a + (b + c) == (a + b) + c
  {
  }

  lemma ExtendLast(front: seq<string>, m: string, c: char)
    ensures var init := front + [m];
      init[..|init| - 1] + [init[|init| - 1] + [c]] == front + [m + [c]]
  {
    var init := front + [m];
    assert init[..|init| - 1] == front;
  }

  /** Joining newline-free parts and splitting again gives the parts back. */
  lemma {:induction false} SplitJoin(parts: seq<string>)
    requires |parts| > 0
    requires forall i :: 0 <= i < |parts| ==> '\n' !in parts[i]
    ensures Split(Join(parts)) == parts
    decreases |parts|
  {
    var last := parts[|parts| - 1];
    if |parts| == 1 {
      SplitExtend("", last);
      assert "" + last == last;
    } else {
      var front := parts[..|parts| - 1];
      SplitJoin(front);
      JoinSnoc(front, last);
      SplitAfterNewline(Join(front), last);
      LastSplitOff(parts);
    }
  }

  /** A non-empty sequence is its front followed by its last element. */
  lemma LastSplitOff<T>(parts: seq<T>)
    requires |parts| > 0
    ensures parts == parts[..|parts| - 1] + [parts[|parts| - 1]]
  {
  }

  /** A newline followed by newline-free text adds that text as one more piece. */
  lemma SplitAfterNewline(j: string, last: string)
    requires '\n' !in last
    ensures Split(j + "\n" + last) == Split(j) + [last]
  {
    SplitNewline(j);
    SplitExtend(j + "\n", last);
    FillEmptyLast(Split(j), last);
  }

  lemma SplitNewline(t: string)
    ensures Split(t + "\n") == Split(t) + [""]
  {
    assert (t + "\n")[..|t|] == t;
  }

  lemma FillEmptyLast(front: seq<string>, x: string)
    ensures var r := front + [""]; r[..|r| - 1] + [r[|r| - 1] + x] == front + [x]
  {
    var r := front + [""];
    assert r[..|r| - 1] == front;
    assert r[|r| - 1] + x == x;
  }

  lemma {:induction false} FlattenAppend(a: seq<seq<string>>, b: seq<seq<string>>)
    ensures Flatten(a + b) == Flatten(a) + Flatten(b)
    decreases |b|
  {
    if |b| == 0 {
      assert a + b == a;
    } else {
      var front, last := b[..|b| - 1], b[|b| - 1];
      var ab := a + b;
      assert ab[..|ab| - 1] == a + front;
      assert ab[|ab| - 1] == last;
      assert Flatten(ab) == Flatten(a + front) + last;
      FlattenAppend(a, front);
      assert Flatten(b) == Flatten(front) + last;
      assert (Flatten(a) + Flatten(front)) + last == Flatten(a) + (Flatten(front) + last);
    }
  }

  lemma {:induction false} JoinEachAppend(a: seq<seq<string>>, b: seq<seq<string>>)
    ensures JoinEach(a + b) == JoinEach(a) + JoinEach(b)
    decreases |b|
  {
    if |b| == 0 {
      assert a + b == a;
    } else {
      assert (a + b)[..|a + b| - 1] == a + b[..|b| - 1];
      JoinEachAppend(a, b[..|b| - 1]);
    }
  }

  /**
   * Joining each non-empty group and then joining the results gives the same
   * text as joining all the lines at once.
   */
  lemma {:induction false} JoinFlatten(groups: seq<seq<string>>)
    requires forall i :: 0 <= i < |groups| ==> groups[i] != []
    ensures Join(JoinEach(groups)) == Join(Flatten(groups))
    decreases |groups|
  {
    if |groups| > 0 {
      var front, last := groups[..|groups| - 1], groups[|groups| - 1];
      JoinFlatten(front);
      if |front| == 0 {
        assert Flatten(groups) == Flatten(front) + last == last;
      } else {
        assert Flatten(front) == Flatten(front[..|front| - 1]) + front[|front| - 1];
        JoinSnoc(JoinEach(front), Join(last));
        JoinAppend(Flatten(front), last);
      }
    }
  }
}
