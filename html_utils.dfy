/**
  `html_block`: the HTML normaliser every page runs its markup through before
  handing it to Streamlit's Markdown renderer.  It splits the template into
  lines as `str.splitlines` does, left-strips each line, joins the lines with
  "\n" and strips the whole.  The `textwrap.dedent` the source applies first
  only removes spaces and tabs at the start of lines, all of which the per-line
  `lstrip` removes anyway, so the model leaves it out.
 */
module HtmlUtils {
  import opened PyText

  /** The characters `str.splitlines` breaks at ("\r\n" counts as one break). */
  predicate IsLineBreak(c: char) {
    var n := c as int;
    0x0A <= n <= 0x0D || 0x1C <= n <= 0x1E || n == 0x85 || n == 0x2028 || n == 0x2029
  }

  lemma {:induction false} LineBreakIsSpace(c: char)
    requires IsLineBreak(c)
    ensures IsSpace(c)
  {
  }

  predicate NoBreak(s: string) {
    forall i :: 0 <= i < |s| ==> !IsLineBreak(s[i])
  }

  /** The length of the first line of `s`. */
  function LineLen(s: string): (n: nat)
    ensures n <= |s|
    ensures forall i :: 0 <= i < n ==> !IsLineBreak(s[i])
    ensures n < |s| ==> IsLineBreak(s[n])
    decreases |s|
  {
    if |s| == 0 || IsLineBreak(s[0]) then 0 else 1 + LineLen(s[1..])
  }

  /** How many characters the line break at `n` takes. */
  function BreakLen(s: string, n: nat): (k: nat)
    requires n < |s|
    ensures 1 <= k <= 2 && n + k <= |s|
  {
    if s[n] == '\r' && n + 1 < |s| && s[n + 1] == '\n' then 2 else 1
  }

  /** The first line of `s`, without its break. */
  function FirstLine(s: string): (r: string)
    ensures |r| == LineLen(s) && NoBreak(r)
  {
    s[..LineLen(s)]
  }

  /** The text after the first line and its break. */
  function AfterLine(s: string): (r: string)
    requires LineLen(s) < |s|
    ensures |r| < |s|
  {
    s[LineLen(s) + BreakLen(s, LineLen(s))..]
  }

  /** `s.splitlines()`: no line holds a break, and a break at the very end
      does not start an empty last line. */
  function SplitLines(s: string): (r: seq<string>)
    ensures forall k :: 0 <= k < |r| ==> NoBreak(r[k])
    ensures r == [] <==> s == []
    decreases |s|
  {
    if |s| == 0 then []
    else
      var n := LineLen(s);
      if n == |s| then [s]
      else [FirstLine(s)] + SplitLines(AfterLine(s))
  }

  /** `line.lstrip() for line in lines` */
  function LStripEach(lines: seq<string>): (r: seq<string>)
    ensures |r| == |lines|
    decreases |lines|
  {
    if lines == [] then [] else [LStrip(lines[0])] + LStripEach(lines[1..])
  }

  lemma {:induction false} LStripEachAt(lines: seq<string>, k: nat)
    requires k < |lines|
    ensures LStripEach(lines)[k] == LStrip(lines[k])
    decreases k
  {
    if k > 0 { LStripEachAt(lines[1..], k - 1); }
  }

  /** `html_block(template)` */
  function HtmlBlock(template: string): string {
    Strip(Join("\n", LStripEach(SplitLines(template))))
  }

  // ---------------------------------------------------------------------
  // The shape of the result

  /** "\n" is the only line break in `s`. */
  predicate OnlyNewlines(s: string) {
    forall k :: 0 <= k < |s| && IsLineBreak(s[k]) ==> s[k] == '\n'
  }

  /** Every line of `s` is empty or starts with a non-whitespace character. */
  predicate LinesStartClean(s: string) {
    (|s| > 0 ==> s[0] == '\n' || !IsSpace(s[0]))
    && forall k :: 1 <= k < |s| && s[k - 1] == '\n' ==> s[k] == '\n' || !IsSpace(s[k])
  }

  /** The result of `html_block` has no leading or trailing whitespace, "\n"
      is its only line break, and none of its lines starts with whitespace
      (an empty line is followed directly by the next "\n"). */
  lemma {:induction false} HtmlBlockShape(template: string)
    ensures var r := HtmlBlock(template);
      (r == [] || (!IsSpace(r[0]) && !IsSpace(r[|r| - 1])))
      && OnlyNewlines(r) && LinesStartClean(r)
  {
    var lines := LStripEach(SplitLines(template));
    forall k | 0 <= k < |lines| ensures NoBreak(lines[k]) && (lines[k] == [] || !IsSpace(lines[k][0])) {
      var l := SplitLines(template)[k];
      LStripEachAt(SplitLines(template), k);
      assert lines[k] == l[|l| - |lines[k]|..];
    }
    JoinClean(lines);
    StripClean(Join("\n", lines));
  }

  lemma {:induction false} JoinClean(lines: seq<string>)
    requires forall k :: 0 <= k < |lines| ==> NoBreak(lines[k]) && (lines[k] == [] || !IsSpace(lines[k][0]))
    ensures OnlyNewlines(Join("\n", lines)) && LinesStartClean(Join("\n", lines))
    decreases |lines|
  {
    if |lines| > 1 {
      var a := lines[0];
      var rest := Join("\n", lines[1..]);
      JoinClean(lines[1..]);
      var s := Join("\n", lines);
      assert s == a + "\n" + rest;
      forall k | 0 <= k < |s| && IsLineBreak(s[k]) ensures s[k] == '\n' {
        if k > |a| { assert s[k] == rest[k - |a| - 1]; }
      }
      forall k | 1 <= k < |s| && s[k - 1] == '\n' ensures s[k] == '\n' || !IsSpace(s[k]) {
        if k > |a| { assert s[k] == rest[k - |a| - 1]; }
        if k > |a| + 1 { assert s[k - 1] == rest[k - |a| - 2]; }
      }
    }
  }

  lemma {:induction false} StripClean(s: string)
    requires OnlyNewlines(s) && LinesStartClean(s)
    ensures var r := Strip(s);
      (r == [] || (!IsSpace(r[0]) && !IsSpace(r[|r| - 1]))) && OnlyNewlines(r) && LinesStartClean(r)
  {
    var i := StripIsSlice(s);
    SliceClean(s, i, Strip(s));
  }

  /** The stripped text is a slice of the original with non-whitespace ends. */
  lemma {:induction false} StripIsSlice(s: string) returns (i: nat)
    ensures var r := Strip(s);
      i + |r| <= |s| && r == s[i..i + |r|] && (r == [] || (!IsSpace(r[0]) && !IsSpace(r[|r| - 1])))
  {
    i := |s| - |LStripBy(s, IsSpace)|;
    StripEnds(s);
    StripBySlice(s, IsSpace);
  }

  lemma {:induction false} StripEnds(s: string)
    ensures var r := Strip(s); r == [] || (!IsSpace(r[0]) && !IsSpace(r[|r| - 1]))
  {
    var l := LStripBy(s, IsSpace);
    var r := RStripBy(l, IsSpace);
    if r != [] {
      assert r[0] == l[0];
    }
  }

  /** A slice starting with a non-whitespace character keeps the shape. */
  lemma {:induction false} SliceClean(s: string, i: nat, r: string)
    requires OnlyNewlines(s) && LinesStartClean(s)
    requires i + |r| <= |s| && r == s[i..i + |r|] && (r == [] || !IsSpace(r[0]))
    ensures OnlyNewlines(r) && LinesStartClean(r)
  {
    forall k | 0 <= k < |r| && IsLineBreak(r[k]) ensures r[k] == '\n' {
      assert r[k] == s[i + k];
    }
    forall k | 1 <= k < |r| && r[k - 1] == '\n' ensures r[k] == '\n' || !IsSpace(r[k]) {
      assert r[k] == s[i + k] && r[k - 1] == s[i + k - 1];
    }
  }

  // ---------------------------------------------------------------------
  // Only whitespace is removed

  /** The non-whitespace characters of `s`, in order. */
  function NonSpace(s: string): (r: string)
    ensures forall i :: 0 <= i < |r| ==> !IsSpace(r[i])
    decreases |s|
  {
    if |s| == 0 then [] else (if IsSpace(s[0]) then [] else [s[0]]) + NonSpace(s[1..])
  }

  lemma {:induction false} NonSpaceAppend(a: string, b: string)
    ensures NonSpace(a + b) == NonSpace(a) + NonSpace(b)
    decreases |a|
  {
    if |a| > 0 {
      var head := if IsSpace(a[0]) then [] else [a[0]];
      NonSpaceAppend(a[1..], b);
      assert (a + b)[0] == a[0] && (a + b)[1..] == a[1..] + b;
      assert NonSpace(a + b) == head + NonSpace(a[1..] + b);
    } else {
      assert a + b == b;
    }
  }

  lemma {:induction false} NonSpaceBlank(s: string)
    requires IsBlank(s)
    ensures NonSpace(s) == []
    decreases |s|
  {
    if |s| > 0 { NonSpaceBlank(s[1..]); }
  }

  lemma {:induction false} NonSpaceLStrip(s: string)
    ensures NonSpace(LStrip(s)) == NonSpace(s)
  {
    var r := LStrip(s);
    var j := |s| - |r|;
    assert s == s[..j] + r;
    NonSpaceBlank(s[..j]);
    NonSpaceAppend(s[..j], r);
  }

  lemma {:induction false} NonSpaceRStrip(s: string)
    ensures NonSpace(RStrip(s)) == NonSpace(s)
  {
    var r := RStrip(s);
    var t := s[|r|..];
    assert s == r + t;
    assert forall i :: 0 <= i < |t| ==> t[i] == s[|r| + i];
    NonSpaceBlank(t);
    NonSpaceAppend(r, t);
  }

  lemma {:induction false} NonSpaceStrip(s: string)
    ensures NonSpace(Strip(s)) == NonSpace(s)
  {
    NonSpaceLStrip(s);
    NonSpaceRStrip(LStrip(s));
  }

  /** The lines of `s` after its first line break are the lines of the rest. */
  lemma {:induction false} SplitLinesCons(s: string)
    requires LineLen(s) < |s|
    ensures LStripEach(SplitLines(s)) == [LStrip(FirstLine(s))] + LStripEach(SplitLines(AfterLine(s)))
  {
    var tail := SplitLines(AfterLine(s));
    assert SplitLines(s) == [FirstLine(s)] + tail;
    assert ([FirstLine(s)] + tail)[1..] == tail;
  }

  lemma {:induction false} JoinConsNonSpace(x: string, lines: seq<string>)
    ensures NonSpace(Join("\n", [x] + lines)) == NonSpace(x) + NonSpace(Join("\n", lines))
  {
    if lines == [] {
      assert Join("\n", [x]) == x;
      assert NonSpace(Join("\n", lines)) == [];
      assert NonSpace(x) + [] == NonSpace(x);
    } else {
      JoinCons("\n", x, lines);
      assert NonSpace("\n") == [];
      NonSpaceAppend(x, "\n");
      NonSpaceAppend(x + "\n", Join("\n", lines));
    }
  }

  /** A line, its line break and the rest keep the non-whitespace characters
      of the line and of the rest. */
  lemma {:induction false} NonSpaceAtBreak(s: string)
    requires LineLen(s) < |s|
    ensures NonSpace(s) == NonSpace(FirstLine(s)) + NonSpace(AfterLine(s))
  {
    var n := LineLen(s);
    var b := BreakLen(s, n);
    assert s == FirstLine(s) + s[n..n + b] + AfterLine(s);
    LineBreakIsSpace(s[n]);
    NonSpaceBlank(s[n..n + b]);
    NonSpaceAppend(FirstLine(s), s[n..n + b]);
    NonSpaceAppend(FirstLine(s) + s[n..n + b], AfterLine(s));
  }

  /** Splitting into lines, left-stripping each and joining with "\n" keeps
      the non-whitespace characters. */
  /** Rebuilding `s` line by line keeps its non-whitespace characters. */
  predicate RebuildKeepsText(s: string) {
    NonSpace(Join("\n", LStripEach(SplitLines(s)))) == NonSpace(s)
  }

  lemma {:induction false} NonSpaceLines(s: string)
    ensures RebuildKeepsText(s)
    decreases |s|
  {
    if |s| == 0 {
      assert SplitLines(s) == [];
    } else if LineLen(s) == |s| {
      NonSpaceSingleLine(s);
    } else {
      NonSpaceLines(AfterLine(s));
      NonSpaceLinesStep(s);
    }
  }

  lemma {:induction false} NonSpaceSingleLine(s: string)
    requires |s| > 0 && LineLen(s) == |s|
    ensures RebuildKeepsText(s)
  {
    NonSpaceLStrip(s);
    assert s[..|s|] == s && LStripEach(SplitLines(s)) == [LStrip(s)];
  }

  lemma {:induction false} NonSpaceLinesStep(s: string)
    requires LineLen(s) < |s| && RebuildKeepsText(AfterLine(s))
    ensures RebuildKeepsText(s)
  {
    var head := FirstLine(s);
    var lines := LStripEach(SplitLines(AfterLine(s)));
    calc {
      NonSpace(Join("\n", LStripEach(SplitLines(s))));
    == { SplitLinesCons(s); }
      NonSpace(Join("\n", [LStrip(head)] + lines));
    == { JoinConsNonSpace(LStrip(head), lines); }
      NonSpace(LStrip(head)) + NonSpace(Join("\n", lines));
    == { NonSpaceLStrip(head); }
      NonSpace(head) + NonSpace(AfterLine(s));
    == { NonSpaceAtBreak(s); }
      NonSpace(s);
    }
  }

  /** `html_block` removes whitespace only: the non-whitespace characters of
      the result are those of the template, in the same order. */
  lemma {:induction false} HtmlBlockKeepsText(template: string)
    ensures NonSpace(HtmlBlock(template)) == NonSpace(template)
  {
    NonSpaceStrip(Join("\n", LStripEach(SplitLines(template))));
    NonSpaceLines(template);
    assert RebuildKeepsText(template);
  }

  // ---------------------------------------------------------------------
  // Idempotence

  /** The first line of a text in `html_block`'s shape has no leading
      whitespace to strip. */
  lemma {:induction false} FirstLineClean(s: string)
    requires |s| > 0 && LinesStartClean(s)
    ensures LStrip(FirstLine(s)) == FirstLine(s)
  {
    var n := LineLen(s);
    if n > 0 {
      assert !IsLineBreak(s[0]) && FirstLine(s)[0] == s[0];
    }
  }

  /** What follows the first "\n" of a text in `html_block`'s shape is again
      in that shape. */
  lemma {:induction false} RestClean(s: string)
    requires LineLen(s) < |s|
    requires OnlyNewlines(s) && LinesStartClean(s) && s[|s| - 1] != '\n'
    ensures var n := LineLen(s);
      s[n] == '\n' && AfterLine(s) == s[n + 1..] && AfterLine(s) != []
      && OnlyNewlines(AfterLine(s)) && LinesStartClean(AfterLine(s))
  {
    var n := LineLen(s);
    var rest := s[n + 1..];
    assert rest[0] == s[n + 1];
    forall k | 1 <= k < |rest| && rest[k - 1] == '\n' ensures rest[k] == '\n' || !IsSpace(rest[k]) {
      assert rest[k] == s[n + 1 + k] && s[n + k] == rest[k - 1];
    }
  }

  /** Line by line: every line has no leading whitespace, every break is a
      single "\n", and the text does not end with a break. */
  predicate Shaped(s: string)
    decreases |s|
  {
    s == [] ||
    (LStrip(FirstLine(s)) == FirstLine(s)
     && (LineLen(s) == |s|
         || (s[LineLen(s)] == '\n' && AfterLine(s) == s[LineLen(s) + 1..] && AfterLine(s) != []
             && Shaped(AfterLine(s)))))
  }

  lemma {:induction false} CleanIsShaped(s: string)
    requires OnlyNewlines(s) && LinesStartClean(s)
    requires s == [] || s[|s| - 1] != '\n'
    ensures Shaped(s)
    decreases |s|
  {
    if |s| > 0 {
      FirstLineClean(s);
      if LineLen(s) < |s| {
        RestClean(s);
        var rest := AfterLine(s);
        assert rest[|rest| - 1] == s[|s| - 1];
        CleanIsShaped(rest);
      }
    }
  }

  /** A text already in `html_block`'s shape is rebuilt unchanged by the
      split, left-strip and join steps. */
  lemma {:induction false} RebuildClean(s: string)
    requires Shaped(s)
    ensures Join("\n", LStripEach(SplitLines(s))) == s
    decreases |s|
  {
    if |s| > 0 {
      if LineLen(s) == |s| {
        assert FirstLine(s) == s;
      } else {
        RebuildClean(AfterLine(s));
        RebuildLine(s);
      }
    }
  }

  lemma {:induction false} RebuildLine(s: string)
    requires |s| > 0 && Shaped(s) && LineLen(s) < |s|
    requires Join("\n", LStripEach(SplitLines(AfterLine(s)))) == AfterLine(s)
    ensures Join("\n", LStripEach(SplitLines(s))) == s
  {
    SplitLinesCons(s);
    RebuildStep(s, LineLen(s), AfterLine(s), LStripEach(SplitLines(AfterLine(s))));
  }

  lemma {:induction false} RebuildStep(s: string, n: nat, rest: string, lines: seq<string>)
    requires n < |s| && s[n] == '\n' && rest == s[n + 1..] && rest != []
    requires Join("\n", lines) == rest
    ensures Join("\n", [s[..n]] + lines) == s
  {
    assert lines != [];
    JoinCons("\n", s[..n], lines);
    assert s == s[..n] + "\n" + rest;
  }

  /** Normalising twice is normalising once. */
  lemma {:induction false} HtmlBlockIdempotent(template: string)
    ensures HtmlBlock(HtmlBlock(template)) == HtmlBlock(template)
  {
    var r := HtmlBlock(template);
    HtmlBlockShape(template);
    CleanIsShaped(r);
    RebuildClean(r);
    StripIdempotent(Join("\n", LStripEach(SplitLines(template))));
  }
}
