/** The docstring as python 3.13 and later store it: tabs expanded and shared indentation removed. */
module CleanedDoc {

  // ----- tabs -----

  function Spaces(n: nat): (s: string)
    ensures |s| == n && forall i :: 0 <= i < n ==> s[i] == ' '
  {
    if n == 0 then "" else Spaces(n - 1) + " "
  }

  predicate RestartsColumn(c: char) {
    c == '\n' || c == '\r'
  }

  /** How many characters stand after the last `\n` or `\r`. */
  function Column(s: string): nat {
    if s == "" || RestartsColumn(s[|s| - 1]) then 0 else Column(s[..|s| - 1]) + 1
  }

  /** `text` with each tab carried to the next multiple of eight columns. */
  function Expand(text: string): string {
    if text == "" then ""
    else
      var out, last := Expand(text[..|text| - 1]), text[|text| - 1];
      if last == '\t' then out + Spaces(8 - Column(out) % 8) else out + [last]
  }

  method ExpandTabs(text: string) returns (out: string)
    ensures out == Expand(text)
  {
    out := "";
    var column := 0;
    for i := 0 to |text|
      invariant out == Expand(text[..i]) && column == Column(out)
    {
      assert text[..i + 1][..i] == text[..i];
      if text[i] == '\t' {
        var width := 8 - column % 8;
        ColumnAfterSpaces(out, width);
        out := out + Spaces(width);
        column := column + width;
      } else {
        assert (out + [text[i]])[..|out|] == out;
        out := out + [text[i]];
        column := if RestartsColumn(text[i]) then 0 else column + 1;
      }
    }
    assert text[..|text|] == text;
  }

  lemma {:induction false} ColumnAfterSpaces(s: string, n: nat)
    ensures Column(s + Spaces(n)) == Column(s) + n
  {
    if n == 0 {
      assert s + Spaces(n) == s;
    } else {
      ColumnAfterSpaces(s, n - 1);
      assert (s + Spaces(n))[..|s| + n - 1] == s + Spaces(n - 1);
    }
  }

  /** A tab becomes one to eight spaces, and leaves the column at a multiple of eight. */
  lemma TabStops(text: string)
    ensures var width := 8 - Column(Expand(text)) % 8;
            && 1 <= width <= 8
            && Expand(text + "\t") == Expand(text) + Spaces(width)
            && Column(Expand(text + "\t")) % 8 == 0
  {
    hide Column, Spaces;
    assert (text + "\t")[..|text|] == text;
    ColumnAfterSpaces(Expand(text), 8 - Column(Expand(text)) % 8);
    NextStop(Column(Expand(text)));
  }

  lemma NextStop(column: nat)
    ensures (column + (8 - column % 8)) % 8 == 0
  {
  }

  lemma {:induction false} ExpandHasNoTabs(text: string)
    ensures '\t' !in Expand(text)
  {
    if text != "" { ExpandHasNoTabs(text[..|text| - 1]); }
  }

  lemma {:induction false} ExpandKeepsTabless(text: string)
    requires '\t' !in text
    ensures Expand(text) == text
  {
    if text != "" { ExpandKeepsTabless(text[..|text| - 1]); }
  }

  // ----- lines -----

  /** `text.split('\n')`. */
  function Split(text: string): (lines: seq<string>)
    ensures lines != []
    ensures forall i :: 0 <= i < |lines| ==> '\n' !in lines[i]
  {
    if text == "" then [""]
    else
      var lines, last := Split(text[..|text| - 1]), text[|text| - 1];
      if last == '\n' then lines + [""] else lines[|lines| - 1 := lines[|lines| - 1] + [last]]
  }

  function Join(lines: seq<string>): string
    requires lines != []
  {
    if |lines| == 1 then lines[0] else Join(lines[..|lines| - 1]) + "\n" + lines[|lines| - 1]
  }

  lemma SplitAdds(text: string, c: char)
    requires c != '\n'
    ensures var lines := Split(text);
            Split(text + [c]) == lines[|lines| - 1 := lines[|lines| - 1] + [c]]
  {
    assert (text + [c])[..|text|] == text;
  }

  lemma {:induction false} SplitGrows(text: string, more: string)
    requires '\n' !in more
    ensures var lines := Split(text);
            Split(text + more) == lines[|lines| - 1 := lines[|lines| - 1] + more]
    decreases |more|
  {
    hide Split;
    var lines := Split(text);
    if more == "" {
      assert text + more == text && lines[|lines| - 1] + more == lines[|lines| - 1];
    } else {
      var most, last := more[..|more| - 1], more[|more| - 1];
      SplitGrows(text, most);
      SplitAdds(text + most, last);
      assert text + more == (text + most) + [last];
      assert lines[|lines| - 1] + more == (lines[|lines| - 1] + most) + [last];
    }
  }

  lemma SplitBreaks(text: string)
    ensures Split(text + "\n") == Split(text) + [""]
  {
    assert (text + "\n")[..|text|] == text;
  }

  /** Joining lines and splitting them again gives the same lines. */
  lemma {:induction false} SplitJoin(lines: seq<string>)
    requires lines != [] && forall i :: 0 <= i < |lines| ==> '\n' !in lines[i]
    ensures Split(Join(lines)) == lines
  {
    hide Split;
    if |lines| == 1 {
      SplitGrows("", lines[0]);
      SplitNothing();
      assert "" + lines[0] == lines[0] && lines == [lines[0]];
    } else {
      var most, last := lines[..|lines| - 1], lines[|lines| - 1];
      SplitJoin(most);
      SplitBreaks(Join(most));
      SplitGrows(Join(most) + "\n", last);
      assert "" + last == last;
      assert (most + [""])[|most| := last] == most + [last] == lines;
    }
  }

  lemma SplitNothing()
    ensures Split("") == [""]
  {
  }

  /** What the last character of a text comes to. */
  lemma ExpandLast(text: string) returns (more: string)
    requires text != ""
    ensures Expand(text) == Expand(text[..|text| - 1]) + more
    ensures if text[|text| - 1] == '\n' then more == "\n" else '\n' !in more
  {
    hide Column;
    var out, last := Expand(text[..|text| - 1]), text[|text| - 1];
    more := if last == '\t' then Spaces(8 - Column(out) % 8) else [last];
  }

  /** Expanding tabs moves no line break. */
  lemma {:induction false} ExpandKeepsLines(text: string)
    ensures |Split(Expand(text))| == |Split(text)|
  {
    if text != "" {
      var before, last := text[..|text| - 1], text[|text| - 1];
      hide Expand, Split;
      ExpandKeepsLines(before);
      var more := ExpandLast(text);
      assert text == before + [last];
      if last == '\n' {
        SplitBreaks(before);
        SplitBreaks(Expand(before));
      } else {
        SplitAdds(before, last);
        SplitGrows(Expand(before), more);
      }
    }
  }

  // ----- indentation -----

  /** Leading spaces. */
  function Indent(line: string): (n: nat)
    ensures n <= |line| && (forall i :: 0 <= i < n ==> line[i] == ' ') && (n < |line| ==> line[n] != ' ')
  {
    if line != "" && line[0] == ' ' then 1 + Indent(line[1..]) else 0
  }

  predicate IsBlank(line: string) {
    forall i :: 0 <= i < |line| ==> line[i] == ' '
  }

  /** The least indentation of the lines that say anything, zero where none does. */
  function Margin(lines: seq<string>): (margin: nat)
    ensures forall i :: 0 <= i < |lines| && !IsBlank(lines[i]) ==> margin <= Indent(lines[i])
    ensures (exists i :: 0 <= i < |lines| && !IsBlank(lines[i]) && margin == Indent(lines[i]))
         || (margin == 0 && forall i :: 0 <= i < |lines| ==> IsBlank(lines[i]))
  {
    if lines == [] then 0
    else
      var most, last := lines[..|lines| - 1], lines[|lines| - 1];
      var margin := Margin(most);
      if IsBlank(last) then margin
      else if exists i :: 0 <= i < |most| && !IsBlank(most[i]) then Least(margin, Indent(last))
      else Indent(last)
  }

  function Least(a: nat, b: nat): nat {
    if a <= b then a else b
  }

  /** A line less up to `margin` of its leading spaces. */
  function Outdent(line: string, margin: nat): string {
    line[Least(Indent(line), margin)..]
  }

  function CleanLines(lines: seq<string>): (clean: seq<string>)
    requires lines != []
    ensures |clean| == |lines|
  {
    var margin := Margin(lines[1..]);
    seq(|lines|, i requires 0 <= i < |lines| =>
      if i == 0 then lines[0][Indent(lines[0])..] else Outdent(lines[i], margin))
  }

  function Cleaned(raw: string): string {
    Join(CleanLines(Split(Expand(raw))))
  }

  method CleanDoc(raw: string) returns (out: string)
    ensures out == Cleaned(raw)
  {
    hide Indent, Margin, Expand, Split, Join;
    var expanded := ExpandTabs(raw);
    var lines := Split(expanded);
    var margin := Margin(lines[1..]);
    ghost var clean := CleanLines(lines);
    out := lines[0][Indent(lines[0])..];
    JoinOne(clean);
    for i := 1 to |lines|
      invariant out == Join(clean[..i])
    {
      JoinMore(clean, i);
      out := out + "\n";
      var leading := Indent(lines[i]);
      out := out + lines[i][Least(leading, margin)..];
    }
    assert clean[..|lines|] == clean;
  }

  lemma JoinOne(lines: seq<string>)
    requires lines != []
    ensures Join(lines[..1]) == lines[0]
  {
  }

  lemma JoinMore(lines: seq<string>, i: nat)
    requires 0 < i < |lines|
    ensures Join(lines[..i + 1]) == Join(lines[..i]) + "\n" + lines[i]
  {
    assert lines[..i + 1][..i] == lines[..i];
  }

  // ----- what cleaning keeps -----

  lemma OutdentIndent(line: string, margin: nat)
    ensures IsBlank(Outdent(line, margin)) <==> IsBlank(line)
    ensures Indent(Outdent(line, margin)) == Indent(line) - Least(Indent(line), margin)
    ensures '\n' !in line ==> '\n' !in Outdent(line, margin)
    ensures '\t' !in line ==> '\t' !in Outdent(line, margin)
  {
    var cut := Least(Indent(line), margin);
    var rest := line[cut..];
    assert forall i :: 0 <= i < |rest| ==> rest[i] == line[cut + i];
    if !IsBlank(line) {
      var i :| 0 <= i < |line| && line[i] != ' ';
      assert rest[i - cut] == line[i];
    }
    IndentIs(rest, Indent(line) - cut);
  }

  lemma {:induction false} IndentIs(line: string, n: nat)
    requires n <= |line| && (forall i :: 0 <= i < n ==> line[i] == ' ') && (n < |line| ==> line[n] != ' ')
    ensures Indent(line) == n
  {
    if n > 0 { IndentIs(line[1..], n - 1); }
  }

  /** The lines of the cleaned text are the cleaned lines. */
  lemma CleanedLines(raw: string)
    ensures Split(Cleaned(raw)) == CleanLines(Split(Expand(raw)))
    ensures |Split(Cleaned(raw))| == |Split(raw)|
  {
    hide Indent, Margin, Expand, Split, Join;
    var lines := Split(Expand(raw));
    var clean := CleanLines(lines);
    forall i | 0 <= i < |clean|
      ensures '\n' !in clean[i]
    {
      OutdentIndent(lines[i], Margin(lines[1..]));
    }
    SplitJoin(clean);
    ExpandKeepsLines(raw);
  }

  lemma {:induction false} JoinHas(lines: seq<string>, c: char)
    requires lines != [] && c != '\n' && forall i :: 0 <= i < |lines| ==> c !in lines[i]
    ensures c !in Join(lines)
  {
    if |lines| > 1 { JoinHas(lines[..|lines| - 1], c); }
  }

  lemma {:induction false} SplitHas(text: string, c: char)
    requires c !in text
    ensures forall i :: 0 <= i < |Split(text)| ==> c !in Split(text)[i]
  {
    if text != "" { SplitHas(text[..|text| - 1], c); }
  }

  lemma CleanedHasNoTabs(raw: string)
    ensures '\t' !in Cleaned(raw)
  {
    hide Indent, Margin, Expand, Split, Join;
    var lines := Split(Expand(raw));
    ExpandHasNoTabs(raw);
    SplitHas(Expand(raw), '\t');
    forall i | 0 <= i < |lines|
      ensures '\t' !in CleanLines(lines)[i]
    {
      OutdentIndent(lines[i], Margin(lines[1..]));
    }
    JoinHas(CleanLines(lines), '\t');
  }

  /** The first line loses its leading spaces outright, and nothing else. */
  lemma FirstLineStartsAtText(lines: seq<string>)
    requires lines != []
    ensures lines[0] == Spaces(Indent(lines[0])) + CleanLines(lines)[0] && Indent(CleanLines(lines)[0]) == 0
  {
    var first := lines[0];
    assert first[..Indent(first)] == Spaces(Indent(first));
    IndentIs(first[Indent(first)..], 0);
  }

  /** A line that says anything loses exactly the margin. */
  lemma LosesMargin(lines: seq<string>, i: nat)
    requires lines != [] && 1 <= i < |lines| && !IsBlank(lines[i])
    ensures var clean, margin := CleanLines(lines), Margin(lines[1..]);
            && !IsBlank(clean[i]) && Indent(clean[i]) == Indent(lines[i]) - margin
            && clean[i][Indent(clean[i])..] == lines[i][Indent(lines[i])..]
  {
    hide Indent, IsBlank;
    var margin := Margin(lines[1..]);
    assert lines[1..][i - 1] == lines[i];
    OutdentIndent(lines[i], margin);
    assert CleanLines(lines)[i] == lines[i][margin..];
  }

  /** Lines below the first keep their indentation relative to one another, and the least becomes none. */
  lemma KeepsRelativeIndent(lines: seq<string>, i: nat, j: nat)
    requires lines != [] && 1 <= i < |lines| && 1 <= j < |lines| && !IsBlank(lines[i]) && !IsBlank(lines[j])
    ensures var clean := CleanLines(lines);
            && Indent(clean[i]) - Indent(clean[j]) == Indent(lines[i]) - Indent(lines[j])
            && clean[i][Indent(clean[i])..] == lines[i][Indent(lines[i])..]
            && exists k :: 1 <= k < |clean| && !IsBlank(clean[k]) && Indent(clean[k]) == 0
  {
    hide Indent, IsBlank, CleanLines;
    LosesMargin(lines, i);
    LosesMargin(lines, j);
    assert lines[1..][i - 1] == lines[i];
    var k :| 0 <= k < |lines[1..]| && !IsBlank(lines[1..][k]) && Margin(lines[1..]) == Indent(lines[1..][k]);
    LosesMargin(lines, k + 1);
    assert 1 <= k + 1 < |CleanLines(lines)| && !IsBlank(CleanLines(lines)[k + 1]);
  }

  lemma CleanMargin(lines: seq<string>)
    requires lines != []
    ensures Margin(CleanLines(lines)[1..]) == 0
  {
    hide Indent, Outdent;
    var clean, margin := CleanLines(lines), Margin(lines[1..]);
    if i :| 1 <= i < |clean| && !IsBlank(clean[i]) {
      OutdentIndent(lines[i], margin);
      KeepsRelativeIndent(lines, i, i);
      var k :| 1 <= k < |clean| && !IsBlank(clean[k]) && Indent(clean[k]) == 0;
      assert clean[1..][k - 1] == clean[k];
    }
  }

  lemma CleanTwice(lines: seq<string>)
    requires lines != []
    ensures CleanLines(CleanLines(lines)) == CleanLines(lines)
  {
    hide Indent, Margin;
    var clean := CleanLines(lines);
    CleanMargin(lines);
    OutdentIndent(lines[0], Indent(lines[0]));
    assert clean[0] == Outdent(lines[0], Indent(lines[0]));
    assert forall i :: 1 <= i < |clean| ==> Outdent(clean[i], 0) == clean[i];
  }

  /** Cleaning a cleaned docstring changes nothing. */
  lemma CleaningIsIdempotent(raw: string)
    ensures Cleaned(Cleaned(raw)) == Cleaned(raw)
  {
    hide CleanLines, Expand, Split, Join;
    CleanedHasNoTabs(raw);
    ExpandKeepsTabless(Cleaned(raw));
    CleanedLines(raw);
    CleanTwice(Split(Expand(raw)));
  }

  /** The column is the distance from the last line break of either kind, or from the start. */
  lemma {:induction false} ColumnMeans(s: string, start: nat)
    requires start <= |s| && (start > 0 ==> s[start - 1] == '\n' || s[start - 1] == '\r')
    requires forall i :: start <= i < |s| ==> s[i] != '\n' && s[i] != '\r'
    ensures Column(s) == |s| - start
    decreases |s|
  {
    if start < |s| { ColumnMeans(s[..|s| - 1], start); }
  }

  /** Splitting into lines loses nothing. */
  lemma {:induction false} JoinSplit(text: string)
    ensures Join(Split(text)) == text
  {
    hide Join, Split;
    if text == "" {
      SplitNothing();
      assert Join([""]) == "" by { JoinOne([""]); assert [""][..1] == [""]; }
    } else {
      var before, c := text[..|text| - 1], text[|text| - 1];
      var lines := Split(before);
      assert text == before + [c];
      JoinSplit(before);
      if c == '\n' {
        SplitBreaks(before);
        JoinMore(lines + [""], |lines|);
        assert (lines + [""])[..|lines| + 1] == lines + [""] && (lines + [""])[..|lines|] == lines;
      } else {
        SplitAdds(before, c);
        JoinLonger(lines, c);
      }
    }
  }

  lemma JoinLonger(lines: seq<string>, c: char)
    requires lines != []
    ensures Join(lines[|lines| - 1 := lines[|lines| - 1] + [c]]) == Join(lines) + [c]
  {
    var longer := lines[|lines| - 1 := lines[|lines| - 1] + [c]];
    assert longer[..|lines| - 1] == lines[..|lines| - 1];
  }
}
