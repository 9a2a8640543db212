/** The two result boxes of the window (gui_interface.py) as text: each
    shown URL or stream name is one line ended by a newline, and the window
    reads a box back by stripping its content and splitting it at
    newlines. */
module GuiText {
  import opened Common

  /** A box holding `xs`, one per line. */
  function Lines(xs: seq<string>): (t: string)
    ensures |t| >= |xs|
  {
    if xs == [] then "" else xs[0] + "\n" + Lines(xs[1..])
  }

  /** The lines currently shown: `set(content.split('\n'))` of the
      stripped content, or nothing when that is empty. */
  function ShownLines(t: string): set<string>
  {
    var c := Strip(t);
    if c == "" then {} else set x | x in Split(c, '\n')
  }

  /** `content.strip().split('\n')[0].strip()`: the first line of a box. */
  function FirstLine(t: string): string
  {
    Strip(Split(Strip(t), '\n')[0])
  }

  /** A line the boxes show back unchanged: not empty and free of
      whitespace (newlines included). */
  predicate CleanLine(x: string)
  {
    x != "" && forall k :: 0 <= k < |x| ==> !IsSpace(x[k])
  }

  predicate AllClean(xs: seq<string>)
  {
    forall i :: 0 <= i < |xs| ==> CleanLine(xs[i])
  }

  /** Appending one line to a box. */
  lemma {:induction false} LinesSnoc(xs: seq<string>, x: string)
    ensures Lines(xs + [x]) == Lines(xs) + x + "\n"
  {
    if xs != [] {
      assert (xs + [x])[1..] == xs[1..] + [x];
      LinesSnoc(xs[1..], x);
    } else {
      assert Lines([x]) == x + "\n" + Lines([]);
    }
  }

  /** A box of lines is the lines joined with newlines, plus a final
      newline. */
  lemma {:induction false} LinesAreJoined(xs: seq<string>)
    requires xs != []
    ensures Lines(xs) == Join(xs, '\n') + "\n"
  {
    if |xs| > 1 {
      LinesAreJoined(xs[1..]);
    }
  }

  /** Joining clean lines starts with the first line's first character
      and ends with the last line's last character. */
  lemma {:induction false} JoinEnds(xs: seq<string>)
    requires xs != [] && AllClean(xs)
    ensures var j := Join(xs, '\n');
      j != "" && j[0] == xs[0][0] && j[|j| - 1] == xs[|xs| - 1][|xs[|xs| - 1]| - 1]
  {
    assert CleanLine(xs[0]);
    if |xs| > 1 {
      assert AllClean(xs[1..]) by {
        forall i | 0 <= i < |xs| - 1 ensures CleanLine(xs[1..][i]) {
          assert xs[1..][i] == xs[i + 1];
        }
      }
      JoinEnds(xs[1..]);
    }
  }

  /** Splitting lines joined with newlines gives the lines back. */
  lemma {:induction false} SplitJoined(xs: seq<string>)
    requires xs != [] && forall i :: 0 <= i < |xs| ==> '\n' !in xs[i]
    ensures Split(Join(xs, '\n'), '\n') == xs
  {
    if |xs| == 1 {
      SplitWithoutSeparator(xs[0], '\n');
    } else {
      SplitJoined(xs[1..]);
      SplitAtFirstSeparator(xs[0], Join(xs[1..], '\n'), '\n');
    }
  }

  /** Stripping a box of clean lines removes the final newline only. */
  lemma StripLines(xs: seq<string>)
    requires xs != [] && AllClean(xs)
    ensures Strip(Lines(xs)) == Join(xs, '\n')
  {
    LinesAreJoined(xs);
    JoinEnds(xs);
    var j := Join(xs, '\n');
    var t := j + "\n";
    assert t[..|t| - 1] == j;
    assert StripRight(t) == StripRight(j);
    assert !IsSpace(t[0]);
    assert StripLeft(t) == t;
  }

  /** A box of clean lines shows exactly those lines. */
  lemma ShownLinesOfLines(xs: seq<string>)
    requires AllClean(xs)
    ensures ShownLines(Lines(xs)) == set x | x in xs
  {
    if xs != [] {
      StripLines(xs);
      SplitJoined(xs);
      JoinEnds(xs);
    }
  }

  /** The first line of a box of clean lines is the first one put in. */
  lemma FirstLineOfLines(xs: seq<string>)
    requires xs != [] && AllClean(xs)
    ensures Strip(Lines(xs)) != "" && FirstLine(Lines(xs)) == xs[0]
  {
    StripLines(xs);
    JoinEnds(xs);
    assert forall i :: 0 <= i < |xs| ==> CleanLine(xs[i]);
    SplitJoined(xs);
    assert CleanLine(xs[0]);
    assert StripLeft(xs[0]) == xs[0];
    assert StripRight(xs[0]) == xs[0];
  }
}
