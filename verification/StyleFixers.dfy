/** The trailing-whitespace and tab checks (utils/check-style-clang-format.py). */
module StyleFixers {
  import opened Sequences

  // ---------------------------------------------------------------------------
  // Text files as lines that keep their line ends
  // ---------------------------------------------------------------------------

  /** The lines after one more character: it starts a new line when the last line is ended. */
  function AddChar(lines: seq<string>, c: char): seq<string> {
    var n := |lines| - 1;
    if lines == [] || EndsLine(lines[n]) then lines + [[c]] else lines[..n] + [lines[n] + [c]]
  }

  /** Lines as readlines() returns them from a text file (newlines already translated to '\n'). */
  function ReadLines(text: string): seq<string> {
    if text == [] then [] else AddChar(ReadLines(text[..|text| - 1]), text[|text| - 1])
  }

  function WriteLines(lines: seq<string>): string {
    if lines == [] then [] else WriteLines(lines[..|lines| - 1]) + lines[|lines| - 1]
  }

  predicate EndsLine(line: string) {
    line != [] && line[|line| - 1] == '\n'
  }

  /** A newline occurs at the end of a line only. */
  predicate IsLine(line: string) {
    line != [] && forall k :: 0 <= k < |line| - 1 ==> line[k] != '\n'
  }

  /** Every line but the last must end in a newline. */
  predicate AreLines(lines: seq<string>) {
    (forall i :: 0 <= i < |lines| ==> IsLine(lines[i])) &&
    (forall i :: 0 <= i < |lines| - 1 ==> EndsLine(lines[i]))
  }

  lemma WriteSnoc(lines: seq<string>, line: string)
    ensures WriteLines(lines + [line]) == WriteLines(lines) + line
  {
    assert (lines + [line])[..|lines|] == lines;
  }

  lemma AddCharWrites(lines: seq<string>, c: char)
    ensures WriteLines(AddChar(lines, c)) == WriteLines(lines) + [c]
  {
    if lines == [] || EndsLine(lines[|lines| - 1]) {
      WriteSnoc(lines, [c]);
    } else {
      var init, last := lines[..|lines| - 1], lines[|lines| - 1];
      assert lines == init + [last];
      WriteSnoc(init, last);
      WriteSnoc(init, last + [c]);
      assert WriteLines(init) + (last + [c]) == (WriteLines(init) + last) + [c];
    }
  }

  lemma AddCharLines(lines: seq<string>, c: char)
    requires AreLines(lines)
    ensures AreLines(AddChar(lines, c))
  {
    var more := AddChar(lines, c);
    forall i | 0 <= i < |more| ensures IsLine(more[i]) && (i < |more| - 1 ==> EndsLine(more[i])) {
      if i < |lines| - 1 {
        assert more[i] == lines[i];
      } else if i == |lines| - 1 && EndsLine(lines[i]) {
        assert more[i] == lines[i];
      } else if i == |lines| - 1 {
        assert more[i] == lines[i] + [c];
      }
    }
  }

  /** Reading a file gives well-formed lines, and writing them gives the file back. */
  lemma {:induction false} ReadGivesLines(text: string)
    ensures AreLines(ReadLines(text)) && WriteLines(ReadLines(text)) == text
  {
    if text != [] {
      var before, c := ReadLines(text[..|text| - 1]), text[|text| - 1];
      ReadGivesLines(text[..|text| - 1]);
      AddCharLines(before, c);
      AddCharWrites(before, c);
      assert ReadLines(text) == AddChar(before, c);
      assert text == text[..|text| - 1] + [c];
    }
  }

  /** A further character of a last line that has not ended yet. */
  lemma AddToLast(lines: seq<string>, line: string, c: char)
    requires line == [] ==> lines == [] || EndsLine(lines[|lines| - 1])
    requires line != [] ==> !EndsLine(line)
    ensures AddChar(if line == [] then lines else lines + [line], c) == lines + [line + [c]]
  {
    if line == [] {
      assert line + [c] == [c];
    } else {
      assert (lines + [line])[..|lines|] == lines;
    }
  }

  lemma ReadSnoc(text: string, c: char)
    ensures ReadLines(text + [c]) == AddChar(ReadLines(text), c)
  {
    assert (text + [c])[..|text|] == text;
  }

  lemma {:induction false} ReadAppend(text: string, line: string)
    requires IsLine(line)
    requires ReadLines(text) == [] || EndsLine(ReadLines(text)[|ReadLines(text)| - 1])
    ensures ReadLines(text + line) == ReadLines(text) + [line]
    decreases |line|
  {
    var n := |line| - 1;
    ReadSnoc(text + line[..n], line[n]);
    assert line == line[..n] + [line[n]];
    assert text + line == (text + line[..n]) + [line[n]];
    if n > 0 {
      ReadAppend(text, line[..n]);
    } else {
      assert text + line[..n] == text;
    }
    AddToLast(ReadLines(text), line[..n], line[n]);
  }

  lemma WriteReadAppend(before: seq<string>, line: string)
    requires IsLine(line) && (before == [] || EndsLine(before[|before| - 1]))
    requires ReadLines(WriteLines(before)) == before
    ensures ReadLines(WriteLines(before) + line) == before + [line]
  {
    ReadAppend(WriteLines(before), line);
  }

  lemma FirstLines(lines: seq<string>)
    requires lines != [] && AreLines(lines)
    ensures var before := lines[..|lines| - 1];
      AreLines(before) && IsLine(lines[|lines| - 1]) && (before == [] || EndsLine(before[|before| - 1]))
  {
  }

  /** Writing lines and reading the file again gives the same lines. */
  lemma {:induction false} ReadWrite(lines: seq<string>)
    requires AreLines(lines)
    ensures ReadLines(WriteLines(lines)) == lines
  {
    if lines != [] {
      var before, last := lines[..|lines| - 1], lines[|lines| - 1];
      FirstLines(lines);
      ReadWrite(before);
      WriteReadAppend(before, last);
      assert lines == before + [last];
    }
  }

  // ---------------------------------------------------------------------------
  // Stripping white space
  // ---------------------------------------------------------------------------

  predicate IsSpace(c: char) {
    var n := c as int;
    9 <= n <= 13 || 28 <= n <= 32 || n == 0x85 || n == 0xA0 || n == 0x1680 || 0x2000 <= n <= 0x200A ||
    n == 0x2028 || n == 0x2029 || n == 0x202F || n == 0x205F || n == 0x3000
  }

  predicate AllSpace(s: string) {
    forall k :: 0 <= k < |s| ==> IsSpace(s[k])
  }

  function RStrip(s: string): string {
    if s != [] && IsSpace(s[|s| - 1]) then RStrip(s[..|s| - 1]) else s
  }

  function LStrip(s: string): string {
    if s != [] && IsSpace(s[0]) then LStrip(s[1..]) else s
  }

  function Strip(s: string): string {
    LStrip(RStrip(s))
  }

  /** Nonempty, without white space at either end. */
  predicate IsCore(s: string) {
    s != [] && !IsSpace(s[0]) && !IsSpace(s[|s| - 1])
  }

  lemma {:induction false} RStripOf(s: string, b: string)
    requires AllSpace(b) && (s == [] || !IsSpace(s[|s| - 1]))
    ensures RStrip(s + b) == s
    decreases |b|
  {
    if b != [] {
      var n := |b| - 1;
      assert (s + b)[..|s + b| - 1] == s + b[..n];
      RStripOf(s, b[..n]);
    } else {
      assert s + b == s;
    }
  }

  lemma {:induction false} LStripOf(a: string, s: string)
    requires AllSpace(a) && (s == [] || !IsSpace(s[0]))
    ensures LStrip(a + s) == s
    decreases |a|
  {
    if a != [] {
      assert (a + s)[1..] == a[1..] + s;
      LStripOf(a[1..], s);
    } else {
      assert a + s == s;
    }
  }

  lemma {:induction false} RStripParts(s: string) returns (b: string)
    ensures s == RStrip(s) + b && AllSpace(b)
    ensures RStrip(s) == [] || !IsSpace(RStrip(s)[|RStrip(s)| - 1])
  {
    if s != [] && IsSpace(s[|s| - 1]) {
      var b' := RStripParts(s[..|s| - 1]);
      b := b' + [s[|s| - 1]];
    } else {
      b := [];
    }
  }

  lemma {:induction false} LStripParts(s: string) returns (a: string)
    ensures s == a + LStrip(s) && AllSpace(a)
    ensures LStrip(s) == [] || !IsSpace(LStrip(s)[0])
  {
    if s != [] && IsSpace(s[0]) {
      var a' := LStripParts(s[1..]);
      a := [s[0]] + a';
    } else {
      a := [];
    }
  }

  /** A string whose stripped form is not empty is that form between white space. */
  lemma StripParts(s: string) returns (a: string, b: string)
    requires Strip(s) != []
    ensures s == a + Strip(s) + b && AllSpace(a) && AllSpace(b) && IsCore(Strip(s))
  {
    b := RStripParts(s);
    a := LStripParts(RStrip(s));
    assert RStrip(s) == a + Strip(s);
  }

  lemma StripOf(a: string, core: string, b: string)
    requires AllSpace(a) && AllSpace(b) && IsCore(core)
    ensures Strip(a + core + b) == core
  {
    RStripOf(a + core, b);
    LStripOf(a, core);
  }

  // ---------------------------------------------------------------------------
  // Expanding tabs
  // ---------------------------------------------------------------------------

  const TAB_SIZE: nat := 4

  function Spaces(n: nat): (s: string)
    ensures |s| == n && forall k :: 0 <= k < n ==> s[k] == ' '
  {
    seq(n, _ => ' ')
  }

  /** The column after c, when c is printed at column col. */
  function NextColumn(c: char, col: nat): nat {
    if c == '\t' then col + (TAB_SIZE - col % TAB_SIZE)
    else if c == '\n' || c == '\r' then 0
    else col + 1
  }

  function ExpandFrom(s: string, col: nat): string {
    if s == [] then []
    else
      (if s[0] == '\t' then Spaces(TAB_SIZE - col % TAB_SIZE) else [s[0]]) +
      ExpandFrom(s[1..], NextColumn(s[0], col))
  }

  function ExpandTabs(s: string): string {
    ExpandFrom(s, 0)
  }

  function ColumnAfter(s: string, col: nat): nat {
    if s == [] then col else ColumnAfter(s[1..], NextColumn(s[0], col))
  }

  lemma {:induction false} ExpandConcat(a: string, b: string, col: nat)
    ensures ExpandFrom(a + b, col) == ExpandFrom(a, col) + ExpandFrom(b, ColumnAfter(a, col))
    decreases |a|
  {
    if a == [] {
      assert a + b == b;
    } else {
      assert (a + b)[1..] == a[1..] + b;
      ExpandConcat(a[1..], b, NextColumn(a[0], col));
    }
  }

  lemma {:induction false} ExpandHasNoTab(s: string, col: nat)
    ensures '\t' !in ExpandFrom(s, col)
    decreases |s|
  {
    if s != [] { ExpandHasNoTab(s[1..], NextColumn(s[0], col)); }
  }

  lemma {:induction false} ExpandWithoutTab(s: string, col: nat)
    requires '\t' !in s
    ensures ExpandFrom(s, col) == s
    decreases |s|
  {
    if s != [] { ExpandWithoutTab(s[1..], NextColumn(s[0], col)); }
  }

  lemma {:induction false} ExpandSpace(s: string, col: nat)
    requires AllSpace(s)
    ensures AllSpace(ExpandFrom(s, col))
    decreases |s|
  {
    if s != [] { ExpandSpace(s[1..], NextColumn(s[0], col)); }
  }

  /** The printed characters other than blanks and tabs, each with its column. */
  function Glyphs(s: string, col: nat): seq<(char, nat)> {
    if s == [] then []
    else (if s[0] == ' ' || s[0] == '\t' then [] else [(s[0], col)]) + Glyphs(s[1..], NextColumn(s[0], col))
  }

  lemma {:induction false} GlyphsAfterSpaces(n: nat, s: string, col: nat)
    ensures Glyphs(Spaces(n) + s, col) == Glyphs(s, col + n)
    ensures ColumnAfter(Spaces(n) + s, col) == ColumnAfter(s, col + n)
    decreases n
  {
    if n == 0 {
      assert Spaces(n) + s == s;
    } else {
      assert (Spaces(n) + s)[1..] == Spaces(n - 1) + s;
      GlyphsAfterSpaces(n - 1, s, col + 1);
    }
  }

  lemma GlyphsCons(c: char, s: string, col: nat)
    ensures Glyphs([c] + s, col) == (if c == ' ' || c == '\t' then [] else [(c, col)]) + Glyphs(s, NextColumn(c, col))
    ensures ColumnAfter([c] + s, col) == ColumnAfter(s, NextColumn(c, col))
  {
    assert ([c] + s)[0] == c && ([c] + s)[1..] == s;
  }

  /** What the first character contributes, a tab or another one. */
  lemma GlyphsStep(c: char, rest: string, s: string, col: nat)
    requires Glyphs(rest, NextColumn(c, col)) == Glyphs(s, NextColumn(c, col))
    requires ColumnAfter(rest, NextColumn(c, col)) == ColumnAfter(s, NextColumn(c, col))
    ensures var first := if c == '\t' then Spaces(TAB_SIZE - col % TAB_SIZE) else [c];
      Glyphs(first + rest, col) == Glyphs([c] + s, col) && ColumnAfter(first + rest, col) == ColumnAfter([c] + s, col)
  {
    GlyphsCons(c, s, col);
    if c == '\t' {
      GlyphsAfterSpaces(TAB_SIZE - col % TAB_SIZE, rest, col);
    } else {
      GlyphsCons(c, rest, col);
    }
  }

  /** MAIN: expanding tabs moves no visible character to another column and keeps the width. */
  lemma {:induction false} ExpandKeepsGlyphs(s: string, col: nat)
    ensures Glyphs(ExpandFrom(s, col), col) == Glyphs(s, col)
    ensures ColumnAfter(ExpandFrom(s, col), col) == ColumnAfter(s, col)
    decreases |s|
  {
    if s != [] {
      ExpandKeepsGlyphs(s[1..], NextColumn(s[0], col));
      GlyphsStep(s[0], ExpandFrom(s[1..], NextColumn(s[0], col)), s[1..], col);
      assert [s[0]] + s[1..] == s;
    }
  }

  /** What a verbose message shows: line and column, counted from 1, and the text of the line, with a
      caret below the character at that column. */
  datatype Report = Report(line: nat, column: nat, text: string)

  // ---------------------------------------------------------------------------
  // The tab check under clang-format guards
  // ---------------------------------------------------------------------------

  /** The two comments that switch formatting on and off. */
  datatype Guards = Guards(on: string, off: string) {
    predicate Valid() {
      ProperGuard(on) && ProperGuard(off)
    }
  }

  predicate ProperGuard(g: string) {
    IsCore(g) && SingleBlanks(g)
  }

  const GUARDS := Guards("// clang-format on", "// clang-format off")

  lemma GuardOnIsProper()
    ensures ProperGuard(GUARDS.on)
  {
  }

  lemma GuardOffIsProper()
    ensures ProperGuard(GUARDS.off)
  {
  }

  lemma GuardsAreValid()
    ensures GUARDS.Valid()
  {
    GuardOnIsProper();
    GuardOffIsProper();
  }

  predicate IsGuard(g: Guards, line: string) {
    Strip(line) == g.on || Strip(line) == g.off
  }

  /** Whether checking is enabled at and after a line. */
  predicate EnabledAt(g: Guards, enabledBefore: bool, line: string) {
    if Strip(line) == g.on then true else if Strip(line) == g.off then false else enabledBefore
  }

  /** Whether checking is enabled once the first n lines were looked at. */
  predicate EnabledAfter(g: Guards, lines: seq<string>, n: nat)
    requires n <= |lines|
  {
    n == 0 || EnabledAt(g, EnabledAfter(g, lines, n - 1), lines[n - 1])
  }

  predicate IsSkipped(g: Guards, lines: seq<string>, i: nat)
    requires i < |lines|
  {
    !EnabledAfter(g, lines, i + 1) && !IsGuard(g, lines[i])
  }

  predicate LineHasTab(g: Guards, lines: seq<string>, i: nat)
    requires i < |lines|
  {
    !IsSkipped(g, lines, i) && '\t' in lines[i]
  }

  predicate TabsCompliant(g: Guards, lines: seq<string>) {
    forall i :: 0 <= i < |lines| ==> !LineHasTab(g, lines, i)
  }

  function FixedTabs(g: Guards, lines: seq<string>): (r: seq<string>)
    ensures |r| == |lines|
    ensures forall i :: 0 <= i < |lines| ==> r[i] == if LineHasTab(g, lines, i) then ExpandTabs(lines[i]) else lines[i]
  {
    seq(|lines|, i requires 0 <= i < |lines| => if LineHasTab(g, lines, i) then ExpandTabs(lines[i]) else lines[i])
  }

  /** Line and column, counted from 1, of the first tab of an offending line. */
  function TabReport(g: Guards, lines: seq<string>, i: nat): seq<Report>
    requires i < |lines|
  {
    if LineHasTab(g, lines, i) then [Report(i + 1, Find(lines[i], '\t') + 1, RStrip(lines[i]))] else []
  }

  function TabReports(g: Guards, lines: seq<string>, n: nat): seq<Report>
    requires n <= |lines|
  {
    if n == 0 then [] else TabReports(g, lines, n - 1) + TabReport(g, lines, n - 1)
  }

  /** The first position of c, or the length of s. */
  function Find(s: string, c: char): (k: nat)
    ensures k <= |s| && (k < |s| <==> c in s)
    ensures k < |s| ==> s[k] == c
    ensures forall j :: 0 <= j < k ==> s[j] != c
  {
    if s == [] || s[0] == c then 0 else 1 + Find(s[1..], c)
  }

  /** Tab expansion changes nothing inside a stripped line that has no tab. */
  lemma ExpandKeepsCore(line: string)
    requires Strip(line) != [] && '\t' !in Strip(line)
    ensures Strip(ExpandTabs(line)) == Strip(line)
  {
    var core := Strip(line);
    var a, b := StripParts(line);
    ExpandConcat(a + core, b, 0);
    ExpandConcat(a, core, 0);
    ExpandSpace(a, 0);
    ExpandSpace(b, ColumnAfter(a + core, 0));
    ExpandWithoutTab(core, ColumnAfter(a, 0));
    StripOf(ExpandFrom(a, 0), core, ExpandFrom(b, ColumnAfter(a + core, 0)));
  }

  /** In particular a guard line stays a guard line of the same kind. */
  lemma ExpandKeepsGuard(g: Guards, line: string)
    requires g.Valid()
    requires IsGuard(g, line)
    ensures Strip(ExpandTabs(line)) == Strip(line)
  {
    ExpandKeepsCore(line);
  }

  /** One line: it stays the same guard, or it is left alone, or the first pass was enabled there. */
  lemma LineEnabledLess(g: Guards, fixedBefore: bool, before: bool, fixed: string, line: string)
    requires fixedBefore ==> before
    requires IsGuard(g, line) ==> Strip(fixed) == Strip(line)
    requires !IsGuard(g, line) && !before ==> fixed == line
    ensures EnabledAt(g, fixedBefore, fixed) ==> EnabledAt(g, before, line)
  {
  }

  /** Line i, once fixed, stays the same guard, and stays as it is when it lies in a disabled stretch. */
  predicate StaysInPass(g: Guards, lines: seq<string>, fixed: seq<string>, i: nat)
    requires i < |lines| == |fixed|
  {
    (IsGuard(g, lines[i]) ==> Strip(fixed[i]) == Strip(lines[i])) &&
    (!IsGuard(g, lines[i]) && !EnabledAfter(g, lines, i) ==> fixed[i] == lines[i])
  }

  lemma FixedTabsStay(g: Guards, lines: seq<string>, i: nat)
    requires g.Valid() && i < |lines|
    ensures StaysInPass(g, lines, FixedTabs(g, lines), i)
  {
    if IsGuard(g, lines[i]) { ExpandKeepsGuard(g, lines[i]); }
  }

  /** A second pass over lines that so stay is enabled after a line only if the first pass was. */
  lemma {:induction false} EnabledLess(g: Guards, lines: seq<string>, fixed: seq<string>, n: nat)
    requires n <= |lines| == |fixed| && forall i :: 0 <= i < |lines| ==> StaysInPass(g, lines, fixed, i)
    ensures EnabledAfter(g, fixed, n) ==> EnabledAfter(g, lines, n)
  {
    if n > 0 {
      var i := n - 1;
      EnabledLess(g, lines, fixed, i);
      assert StaysInPass(g, lines, fixed, i);
      LineEnabledLess(g, EnabledAfter(g, fixed, i), EnabledAfter(g, lines, i), fixed[i], lines[i]);
    }
  }

  /** The second pass is enabled after a line only if the first pass was. */
  lemma SecondPassEnabledLess(g: Guards, lines: seq<string>, n: nat)
    requires g.Valid() && n <= |lines|
    ensures EnabledAfter(g, FixedTabs(g, lines), n) ==> EnabledAfter(g, lines, n)
  {
    forall i | 0 <= i < |lines| ensures StaysInPass(g, lines, FixedTabs(g, lines), i) { FixedTabsStay(g, lines, i); }
    EnabledLess(g, lines, FixedTabs(g, lines), n);
  }

  /** MAIN: the fixed lines pass the tab check, although expansion can create new guard lines. */
  lemma TabFixIsFixpoint(g: Guards, lines: seq<string>)
    requires g.Valid()
    ensures TabsCompliant(g, FixedTabs(g, lines))
  {
    var fixed := FixedTabs(g, lines);
    forall i | 0 <= i < |fixed| ensures !LineHasTab(g, fixed, i) {
      if IsSkipped(g, lines, i) {
        SecondPassEnabledLess(g, lines, i + 1);
      } else {
        ExpandHasNoTab(lines[i], 0);
      }
    }
  }

  /** The column at which the text of a line starts, when the line itself starts at col. */
  function CoreColumn(s: string, col: nat): nat {
    if s != [] && IsSpace(s[0]) then CoreColumn(s[1..], NextColumn(s[0], col)) else col
  }

  lemma {:induction false} CoreColumnOf(a: string, rest: string, col: nat)
    requires AllSpace(a) && rest != [] && !IsSpace(rest[0])
    ensures CoreColumn(a + rest, col) == ColumnAfter(a, col)
    decreases |a|
  {
    if a == [] {
      assert a + rest == rest;
    } else {
      assert (a + rest)[1..] == a[1..] + rest;
      CoreColumnOf(a[1..], rest, NextColumn(a[0], col));
    }
  }

  lemma ExpandedIsCore(core: string, col: nat)
    requires IsCore(core)
    ensures IsCore(ExpandFrom(core, col))
  {
    var n := |core| - 1;
    assert core == core[..n] + [core[n]];
    ExpandConcat(core[..n], [core[n]], col);
    ExpandWithoutTab([core[n]], ColumnAfter(core[..n], col));
  }

  /** Expansion and stripping commute, up to the column at which the text starts. */
  lemma StripExpanded(line: string)
    requires Strip(line) != []
    ensures Strip(ExpandTabs(line)) == ExpandFrom(Strip(line), CoreColumn(line, 0))
  {
    var core := Strip(line);
    var a, b := StripParts(line);
    CoreBetweenSpace(a, core, b);
    assert line == a + (core + b);
    CoreColumnOf(a, core + b, 0);
  }

  lemma CoreBetweenSpace(a: string, core: string, b: string)
    requires AllSpace(a) && AllSpace(b) && IsCore(core)
    ensures Strip(ExpandTabs(a + core + b)) == ExpandFrom(core, ColumnAfter(a, 0))
  {
    var col, end := ColumnAfter(a, 0), ColumnAfter(a + core, 0);
    ExpandConcat(a + core, b, 0);
    ExpandConcat(a, core, 0);
    ExpandSpace(a, 0);
    ExpandSpace(b, end);
    ExpandedIsCore(core, col);
    StripOf(ExpandFrom(a, 0), ExpandFrom(core, col), ExpandFrom(b, end));
  }

  lemma BlankStaysBlank(line: string)
    requires Strip(line) == []
    ensures Strip(ExpandTabs(line)) == []
  {
    var b := RStripParts(line);
    var a := LStripParts(RStrip(line));
    assert line == a + b;
    ExpandSpace(line, 0);
    assert ExpandTabs(line) == [] + ExpandTabs(line);
    RStripOf([], ExpandTabs(line));
  }

  /** core is g with some blanks replaced by tabs that stand one column before a tab stop. */
  predicate Disguised(core: string, g: string, col: nat) {
    |core| == |g| &&
    forall k :: 0 <= k < |g| ==> core[k] == g[k] || (core[k] == '\t' && g[k] == ' ' && (col + k) % TAB_SIZE == 3)
  }

  /** One line of text without tabs and without two blanks in a row. */
  predicate SingleBlanks(g: string) {
    (forall k :: 0 <= k < |g| ==> g[k] != '\t' && g[k] != '\n' && g[k] != '\r') &&
    forall k :: 1 <= k < |g| ==> !(g[k - 1] == ' ' && g[k] == ' ')
  }

  lemma DisguisedStep(core: string, g: string, col: nat)
    requires core != [] && g != []
    ensures Disguised(core, g, col) <==>
            (core[0] == g[0] || (core[0] == '\t' && g[0] == ' ' && col % TAB_SIZE == 3)) &&
            Disguised(core[1..], g[1..], col + 1)
  {
    if Disguised(core[1..], g[1..], col + 1) {
      forall k | 1 <= k < |g|
        ensures core[k] == g[k] || (core[k] == '\t' && g[k] == ' ' && (col + k) % TAB_SIZE == 3)
      {
        assert core[k] == core[1..][k - 1] && g[k] == g[1..][k - 1];
      }
    }
  }

  lemma {:induction false} ExpandsToIff(core: string, g: string, col: nat)
    requires SingleBlanks(g)
    ensures ExpandFrom(core, col) == g <==> Disguised(core, g, col)
    decreases |core|
  {
    if core != [] && g != [] {
      DisguisedStep(core, g, col);
      var first := if core[0] == '\t' then Spaces(TAB_SIZE - col % TAB_SIZE) else [core[0]];
      var rest := ExpandFrom(core[1..], NextColumn(core[0], col));
      assert ExpandFrom(core, col) == first + rest;
      if |first| == 1 {
        assert (first + rest)[1..] == rest;
        assert first + rest == g <==> first[0] == g[0] && rest == g[1..];
        if first[0] == g[0] { ExpandsToIff(core[1..], g[1..], col + 1); }
      } else {
        assert (first + rest)[0] == ' ' == (first + rest)[1];
      }
    }
  }

  lemma ExpandsToGuard(line: string, g: string)
    requires SingleBlanks(g) && g != []
    ensures Strip(ExpandTabs(line)) == g <==> Disguised(Strip(line), g, CoreColumn(line, 0))
  {
    if Strip(line) == [] {
      BlankStaysBlank(line);
    } else {
      StripExpanded(line);
      ExpandsToIff(Strip(line), g, CoreColumn(line, 0));
    }
  }

  lemma NewGuardHasTab(line: string)
    requires Strip(line) != [] && Strip(ExpandTabs(line)) != Strip(line)
    ensures '\t' in Strip(line)
  {
    if '\t' !in Strip(line) { ExpandKeepsCore(line); }
  }

  /** MAIN: expansion makes a guard exactly of a line whose text is a guard, blanks of it possibly written
      as tabs one column before a tab stop. */
  lemma ExpandsToGuardIff(line: string)
    ensures var core, col := Strip(line), CoreColumn(line, 0);
      IsGuard(GUARDS, ExpandTabs(line)) <==> Disguised(core, GUARDS.on, col) || Disguised(core, GUARDS.off, col)
    ensures IsGuard(GUARDS, ExpandTabs(line)) && !IsGuard(GUARDS, line) ==> '\t' in Strip(line)
  {
    GuardsAreValid();
    ExpandsToGuard(line, GUARDS.on);
    ExpandsToGuard(line, GUARDS.off);
    if IsGuard(GUARDS, ExpandTabs(line)) && !IsGuard(GUARDS, line) { NewGuardHasTab(line); }
  }

  /** A tab one column before a tab stop expands to a single blank. */
  lemma OneBlank(head: string, tail: string)
    requires forall k :: 0 <= k < |head| ==> head[k] != '\t' && head[k] != '\n' && head[k] != '\r'
    requires |head| % TAB_SIZE == 3 && '\t' !in tail
    ensures ExpandTabs(head + (['\t'] + tail)) == head + ([' '] + tail)
  {
    var rest := ['\t'] + tail;
    ColumnWithoutTab(head, 0);
    ExpandConcat(head, rest, 0);
    ExpandWithoutTab(head, 0);
    assert rest[0] == '\t' && rest[1..] == tail;
    ExpandWithoutTab(tail, |head| + 1);
    assert Spaces(1) == [' '];
    assert ExpandFrom(rest, |head|) == Spaces(1) + ExpandFrom(tail, |head| + 1);
  }

  lemma CoreIsStripped(core: string)
    requires IsCore(core)
    ensures Strip(core) == core
  {
    StripOf([], core, []);
    assert [] + core + [] == core;
  }

  /** Such a new guard line: the tab in it expands to the one blank that the guard needs. */
  lemma ExpansionCanMakeGuard()
    ensures var line := "// clang-format" + (['\t'] + "off");
      !IsGuard(GUARDS, line) && IsGuard(GUARDS, ExpandTabs(line))
  {
    var head := "// clang-format";
    var line, guard := head + (['\t'] + "off"), head + ([' '] + "off");
    OneBlank(head, "off");
    CoreIsStripped(line);
    CoreIsStripped(guard);
    assert guard == GUARDS.off;
    assert line[15] != GUARDS.off[15] && line[15] != GUARDS.on[15];
  }

  lemma {:induction false} ColumnWithoutTab(s: string, col: nat)
    requires forall k :: 0 <= k < |s| ==> s[k] != '\t' && s[k] != '\n' && s[k] != '\r'
    ensures ColumnAfter(s, col) == col + |s|
    decreases |s|
  {
    if s != [] { ColumnWithoutTab(s[1..], col + 1); }
  }

  // ---------------------------------------------------------------------------
  // The trailing-whitespace check
  // ---------------------------------------------------------------------------

  function Trimmed(line: string): string {
    RStrip(line) + ['\n']
  }

  predicate WhitespaceCompliant(lines: seq<string>) {
    forall i :: 0 <= i < |lines| ==> Trimmed(lines[i]) == lines[i]
  }

  function FixedWhitespace(lines: seq<string>): (r: seq<string>)
    ensures |r| == |lines| && forall i :: 0 <= i < |lines| ==> r[i] == Trimmed(lines[i])
  {
    seq(|lines|, i requires 0 <= i < |lines| => Trimmed(lines[i]))
  }

  /** Line and column behind the last kept character of an offending line. */
  function WhitespaceReport(lines: seq<string>, i: nat): seq<Report>
    requires i < |lines|
  {
    if Trimmed(lines[i]) == lines[i] then []
    else
      var text := ExpandTabs(RStrip(Trimmed(lines[i])));
      [Report(i + 1, |text| + 1, text)]
  }

  function WhitespaceReports(lines: seq<string>, n: nat): seq<Report>
    requires n <= |lines|
  {
    if n == 0 then [] else WhitespaceReports(lines, n - 1) + WhitespaceReport(lines, n - 1)
  }

  lemma TrimmedIsTrimmed(line: string)
    ensures RStrip(Trimmed(line)) == RStrip(line) && Trimmed(Trimmed(line)) == Trimmed(line)
  {
    var b := RStripParts(line);
    RStripOf(RStrip(line), ['\n']);
  }

  lemma WhitespaceFixIsFixpoint(lines: seq<string>)
    ensures WhitespaceCompliant(FixedWhitespace(lines))
  {
    forall i | 0 <= i < |lines| { TrimmedIsTrimmed(lines[i]); }
  }

  lemma WhitespaceFixKeepsLines(lines: seq<string>)
    requires AreLines(lines)
    ensures AreLines(FixedWhitespace(lines))
  {
    forall i | 0 <= i < |lines| ensures IsLine(Trimmed(lines[i])) && EndsLine(Trimmed(lines[i])) {
      var b := RStripParts(lines[i]);
      var kept := RStrip(lines[i]);
      forall k | 0 <= k < |kept| ensures kept[k] != '\n' { assert lines[i][k] == kept[k]; }
    }
  }

  lemma {:induction false} ExpandKeepsNewlines(s: string, col: nat)
    requires forall k :: 0 <= k < |s| ==> s[k] != '\n'
    ensures forall k :: 0 <= k < |ExpandFrom(s, col)| ==> ExpandFrom(s, col)[k] != '\n'
    decreases |s|
  {
    if s != [] { ExpandKeepsNewlines(s[1..], NextColumn(s[0], col)); }
  }

  /** A last character that is not a tab stays last. */
  lemma ExpandKeepsLast(s: string)
    requires s != [] && s[|s| - 1] != '\t'
    ensures ExpandTabs(s) == ExpandTabs(s[..|s| - 1]) + [s[|s| - 1]]
  {
    var n := |s| - 1;
    assert s == s[..n] + [s[n]];
    ExpandConcat(s[..n], [s[n]], 0);
    ExpandWithoutTab([s[n]], ColumnAfter(s[..n], 0));
  }

  lemma ExpandedIsLine(line: string)
    requires IsLine(line)
    ensures IsLine(ExpandTabs(line)) && (EndsLine(line) ==> EndsLine(ExpandTabs(line)))
  {
    if EndsLine(line) {
      ExpandKeepsLast(line);
      ExpandKeepsNewlines(line[..|line| - 1], 0);
    } else {
      ExpandKeepsNewlines(line, 0);
      assert ExpandTabs(line) != [];
    }
  }

  lemma TabFixKeepsLines(g: Guards, lines: seq<string>)
    requires AreLines(lines)
    ensures AreLines(FixedTabs(g, lines))
  {
    forall i | 0 <= i < |lines| { ExpandedIsLine(lines[i]); }
  }

  /** Tab expansion does not bring back trailing white space. */
  lemma ExpandedStaysTrimmed(line: string)
    requires Trimmed(line) == line
    ensures Trimmed(ExpandTabs(line)) == ExpandTabs(line)
  {
    var core := RStrip(line);
    var b := RStripParts(line);
    ExpandKeepsLast(line);
    assert line[..|line| - 1] == core;
    if core != [] { ExpandKeepsLast(core); }
    RStripOf(ExpandTabs(core), ['\n']);
  }

  lemma TabFixKeepsTrimmed(g: Guards, lines: seq<string>)
    requires WhitespaceCompliant(lines)
    ensures WhitespaceCompliant(FixedTabs(g, lines))
  {
    forall i | 0 <= i < |lines| { ExpandedStaysTrimmed(lines[i]); }
  }

  // ---------------------------------------------------------------------------
  // Whole files
  // ---------------------------------------------------------------------------

  function FixWhitespaceText(text: string): string {
    WriteLines(FixedWhitespace(ReadLines(text)))
  }

  function FixTabsText(g: Guards, text: string): string {
    WriteLines(FixedTabs(g, ReadLines(text)))
  }

  lemma FixedTextLines(g: Guards, text: string)
    ensures ReadLines(FixWhitespaceText(text)) == FixedWhitespace(ReadLines(text))
    ensures ReadLines(FixTabsText(g, text)) == FixedTabs(g, ReadLines(text))
  {
    var lines := ReadLines(text);
    ReadGivesLines(text);
    WhitespaceFixKeepsLines(lines);
    ReadWrite(FixedWhitespace(lines));
    TabFixKeepsLines(g, lines);
    ReadWrite(FixedTabs(g, lines));
  }

  /** MAIN: a fixed file, read again, passes the check that fixed it, with as many lines. */
  lemma FixedFilePasses(text: string)
    ensures TabsCompliant(GUARDS, ReadLines(FixTabsText(GUARDS, text)))
    ensures WhitespaceCompliant(ReadLines(FixWhitespaceText(text)))
    ensures |ReadLines(FixTabsText(GUARDS, text))| == |ReadLines(text)| == |ReadLines(FixWhitespaceText(text))|
  {
    GuardsAreValid();
    FixedTextLines(GUARDS, text);
    TabFixIsFixpoint(GUARDS, ReadLines(text));
    WhitespaceFixIsFixpoint(ReadLines(text));
  }

  /** MAIN: the two fixes in the tool's order leave a file that passes both checks, with as many lines. */
  lemma BothFixesPassBoth(text: string)
    ensures var lines := ReadLines(FixTabsText(GUARDS, FixWhitespaceText(text)));
      WhitespaceCompliant(lines) && TabsCompliant(GUARDS, lines) && |lines| == |ReadLines(text)|
  {
    GuardsAreValid();
    FixedTextLines(GUARDS, text);
    FixedTextLines(GUARDS, FixWhitespaceText(text));
    FixedFilePasses(text);
    FixedFilePasses(FixWhitespaceText(text));
    TabFixKeepsTrimmed(GUARDS, ReadLines(FixWhitespaceText(text)));
  }

  // ---------------------------------------------------------------------------
  // What is protected, by the two comments themselves
  // ---------------------------------------------------------------------------

  predicate IsComment(line: string) {
    Strip(line) == "// clang-format on" || Strip(line) == "// clang-format off"
  }

  /** The k-th line switches formatting off, and no line between it and the i-th is a comment. */
  predicate OffBefore(lines: seq<string>, k: nat, i: nat)
    requires k < i <= |lines|
  {
    Strip(lines[k]) == "// clang-format off" && forall j :: k < j < i ==> !IsComment(lines[j])
  }

  /** The last comment among the first n lines switches formatting off. */
  predicate Off(lines: seq<string>, n: nat)
    requires n <= |lines|
  {
    exists k: nat :: k < n && OffBefore(lines, k, n)
  }

  /** The last comment before the line, which is none itself, switches formatting off. */
  predicate Protected(lines: seq<string>, i: nat)
    requires i < |lines|
  {
    !IsComment(lines[i]) && Off(lines, i)
  }

  lemma CommentsAreGuards(line: string)
    ensures IsComment(line) <==> IsGuard(GUARDS, line)
  {
  }

  /** One line more: a comment decides, any other line leaves things as they were. */
  lemma OffStep(lines: seq<string>, n: nat)
    requires n < |lines|
    ensures IsComment(lines[n]) ==> (Off(lines, n + 1) <==> Strip(lines[n]) == "// clang-format off")
    ensures !IsComment(lines[n]) ==> (Off(lines, n + 1) <==> Off(lines, n))
  {
    var m := n + 1;
    if Strip(lines[n]) == "// clang-format off" { assert OffBefore(lines, n, m); }
    if k: nat :| k < m && OffBefore(lines, k, m) {
      if IsComment(lines[n]) {
        assert k == n;
      } else {
        assert OffBefore(lines, k, n);
      }
    }
    if k: nat :| k < n && OffBefore(lines, k, n) && !IsComment(lines[n]) { assert OffBefore(lines, k, m); }
  }

  lemma OnIsNotOff()
    ensures "// clang-format on" != "// clang-format off"
  {
    assert |"// clang-format on"| != |"// clang-format off"|;
  }

  lemma {:induction false} DisabledIffOff(lines: seq<string>, n: nat)
    requires n <= |lines|
    ensures !EnabledAfter(GUARDS, lines, n) <==> Off(lines, n)
  {
    if n > 0 {
      DisabledIffOff(lines, n - 1);
      OffStep(lines, n - 1);
      OnIsNotOff();
      CommentsAreGuards(lines[n - 1]);
    }
  }

  /** MAIN: the lines that are skipped are the protected ones. */
  lemma SkippedIffProtected(lines: seq<string>, i: nat)
    requires i < |lines|
    ensures IsSkipped(GUARDS, lines, i) <==> Protected(lines, i)
  {
    CommentsAreGuards(lines[i]);
    DisabledIffOff(lines, i + 1);
    OffStep(lines, i);
  }

  /** Every line with a tab is protected. */
  predicate TabsProtected(lines: seq<string>) {
    forall i :: 0 <= i < |lines| && '\t' in lines[i] ==> Protected(lines, i)
  }

  /** Of line i, `after` keeps what is protected or has no tab; elsewhere no tab is left and every visible
      character stays in its column. */
  predicate TabsReplaced(lines: seq<string>, after: seq<string>, i: nat)
    requires i < |lines| == |after|
  {
    if Protected(lines, i) || '\t' !in lines[i] then after[i] == lines[i]
    else '\t' !in after[i] && Glyphs(after[i], 0) == Glyphs(lines[i], 0) &&
         ColumnAfter(after[i], 0) == ColumnAfter(lines[i], 0)
  }

  lemma CompliantIffProtected(lines: seq<string>)
    ensures TabsCompliant(GUARDS, lines) <==> TabsProtected(lines)
  {
    forall i | 0 <= i < |lines|
      ensures LineHasTab(GUARDS, lines, i) <==> '\t' in lines[i] && !Protected(lines, i)
    {
      SkippedIffProtected(lines, i);
    }
  }

  lemma FixReplacesTabs(lines: seq<string>, i: nat)
    requires i < |lines|
    ensures TabsReplaced(lines, FixedTabs(GUARDS, lines), i)
  {
    SkippedIffProtected(lines, i);
    if !Protected(lines, i) && '\t' in lines[i] {
      ExpandHasNoTab(lines[i], 0);
      ExpandKeepsGlyphs(lines[i], 0);
    }
  }

  predicate TabsGone(text: string, newText: string) {
    var lines, after := ReadLines(text), ReadLines(newText);
    |after| == |lines| && forall i :: 0 <= i < |lines| ==> TabsReplaced(lines, after, i)
  }

  predicate BlanksGone(text: string, newText: string) {
    var lines, after := ReadLines(text), ReadLines(newText);
    |after| == |lines| && forall i :: 0 <= i < |lines| ==> BlanksRemoved(lines, after, i)
  }

  /** MAIN: the tab check and its fix, in terms of the protected lines. */
  lemma TabFixMeaning(text: string)
    ensures TabsCompliant(GUARDS, ReadLines(text)) <==> TabsProtected(ReadLines(text))
    ensures TabsGone(text, FixTabsText(GUARDS, text))
  {
    var lines := ReadLines(text);
    CompliantIffProtected(lines);
    FixedTextLines(GUARDS, text);
    forall i | 0 <= i < |lines| ensures TabsReplaced(lines, FixedTabs(GUARDS, lines), i) { FixReplacesTabs(lines, i); }
  }

  /** `text` is the line without the white space at its end. */
  predicate IsTextOf(line: string, text: string) {
    text <= line && AllSpace(line[|text|..]) && (text == [] || !IsSpace(text[|text| - 1]))
  }

  lemma RStripIsText(line: string)
    ensures IsTextOf(line, RStrip(line))
  {
    var b := RStripParts(line);
    assert line[|RStrip(line)|..] == b;
  }

  /** The line ends in a newline, directly behind something that is no white space, if in anything. */
  predicate Tidy(line: string) {
    EndsLine(line) && (|line| == 1 || !IsSpace(line[|line| - 2]))
  }

  lemma TrimmedIffTidy(line: string)
    ensures Trimmed(line) == line <==> Tidy(line)
  {
    var b := RStripParts(line);
    if Tidy(line) {
      var text := line[..|line| - 1];
      assert line == text + ['\n'];
      RStripOf(text, ['\n']);
    }
  }

  /** Every line is replaced by its text and a newline. */
  predicate BlanksRemoved(lines: seq<string>, after: seq<string>, i: nat)
    requires i < |lines| == |after|
  {
    after[i] != [] && after[i][|after[i]| - 1] == '\n' && IsTextOf(lines[i], after[i][..|after[i]| - 1])
  }

  /** MAIN: the white-space check and its fix, in terms of the characters of the lines. */
  lemma WhitespaceFixMeaning(text: string)
    ensures WhitespaceCompliant(ReadLines(text)) <==>
            forall i :: 0 <= i < |ReadLines(text)| ==> Tidy(ReadLines(text)[i])
    ensures BlanksGone(text, FixWhitespaceText(text))
  {
    var lines := ReadLines(text);
    FixedTextLines(GUARDS, text);
    forall i | 0 <= i < |lines| ensures Trimmed(lines[i]) == lines[i] <==> Tidy(lines[i]) { TrimmedIffTidy(lines[i]); }
    forall i | 0 <= i < |lines| ensures BlanksRemoved(lines, FixedWhitespace(lines), i) {
      RStripIsText(lines[i]);
      assert Trimmed(lines[i])[..|Trimmed(lines[i])| - 1] == RStrip(lines[i]);
    }
  }

  /** A report on line k names the first tab and shows the line's text. */
  predicate NamesTab(line: string, k: nat, r: Report) {
    r.line == k + 1 && 1 <= r.column <= |line| && line[r.column - 1] == '\t' && '\t' !in line[..r.column - 1] &&
    IsTextOf(line, r.text)
  }

  /** A report on line k shows the line's text with its tabs expanded and names the place behind it. */
  ghost predicate NamesEnd(line: string, k: nat, r: Report) {
    r.line == k + 1 && r.column == |r.text| + 1 && '\t' !in r.text &&
    exists text :: IsTextOf(line, text) && Glyphs(r.text, 0) == Glyphs(text, 0) &&
                   ColumnAfter(r.text, 0) == ColumnAfter(text, 0)
  }

  /** p are the lines reported on, in order. */
  ghost predicate TabsReported(lines: seq<string>, reports: seq<Report>, p: seq<nat>) {
    |p| == |reports| && Increasing(p) &&
    (forall i :: 0 <= i < |p| ==> p[i] < |lines| && NamesTab(lines[p[i]], p[i], reports[i])) &&
    (forall k :: 0 <= k < |lines| ==> (k in p <==> '\t' in lines[k] && !Protected(lines, k)))
  }

  ghost predicate BlanksReported(lines: seq<string>, reports: seq<Report>, p: seq<nat>) {
    |p| == |reports| && Increasing(p) &&
    (forall i :: 0 <= i < |p| ==> p[i] < |lines| && NamesEnd(lines[p[i]], p[i], reports[i])) &&
    (forall k :: 0 <= k < |lines| ==> (k in p <==> !Tidy(lines[k])))
  }

  lemma TabReportNames(lines: seq<string>, i: nat)
    requires i < |lines| && LineHasTab(GUARDS, lines, i)
    ensures |TabReport(GUARDS, lines, i)| == 1 && NamesTab(lines[i], i, TabReport(GUARDS, lines, i)[0])
  {
    RStripIsText(lines[i]);
  }

  ghost function TabChosen(lines: seq<string>): nat -> bool {
    (k: nat) => k < |lines| && LineHasTab(GUARDS, lines, k)
  }

  ghost function TabNamed(lines: seq<string>): (nat, Report) -> bool {
    (k: nat, r: Report) => k < |lines| && NamesTab(lines[k], k, r)
  }

  lemma TabReportsStep(lines: seq<string>, n: nat, p: seq<nat>) returns (q: seq<nat>)
    requires n < |lines| && Selected(n, TabChosen(lines), TabNamed(lines), TabReports(GUARDS, lines, n), p)
    ensures Selected(n + 1, TabChosen(lines), TabNamed(lines), TabReports(GUARDS, lines, n + 1), q)
  {
    var chosen, named, before := TabChosen(lines), TabNamed(lines), TabReports(GUARDS, lines, n);
    q := p;
    if chosen(n) {
      TabReportNames(lines, n);
      SelectedSnoc(n, chosen, named, before, p, TabReport(GUARDS, lines, n)[0]);
      assert TabReport(GUARDS, lines, n) == [TabReport(GUARDS, lines, n)[0]];
      q := p + [n];
    } else {
      SelectedSkip(n, chosen, named, before, p);
      assert before + [] == before;
    }
  }

  lemma {:induction false} TabReportsUpTo(lines: seq<string>, n: nat) returns (p: seq<nat>)
    requires n <= |lines|
    ensures Selected(n, TabChosen(lines), TabNamed(lines), TabReports(GUARDS, lines, n), p)
  {
    if n == 0 {
      SelectedNone(TabChosen(lines), TabNamed(lines));
      p := [];
    } else {
      var before := TabReportsUpTo(lines, n - 1);
      p := TabReportsStep(lines, n - 1, before);
    }
  }

  /** MAIN: the verbose reports of the tab check. */
  lemma TabReportsMeaning(lines: seq<string>) returns (p: seq<nat>)
    ensures TabsReported(lines, TabReports(GUARDS, lines, |lines|), p)
  {
    p := TabReportsUpTo(lines, |lines|);
    forall k | 0 <= k < |lines| ensures LineHasTab(GUARDS, lines, k) <==> '\t' in lines[k] && !Protected(lines, k) {
      SkippedIffProtected(lines, k);
    }
  }

  lemma WhitespaceReportNames(lines: seq<string>, i: nat)
    requires i < |lines| && Trimmed(lines[i]) != lines[i]
    ensures |WhitespaceReport(lines, i)| == 1 && NamesEnd(lines[i], i, WhitespaceReport(lines, i)[0])
  {
    var text := RStrip(lines[i]);
    RStripIsText(lines[i]);
    TrimmedIsTrimmed(lines[i]);
    ExpandHasNoTab(text, 0);
    ExpandKeepsGlyphs(text, 0);
  }

  ghost function BlankChosen(lines: seq<string>): nat -> bool {
    (k: nat) => k < |lines| && Trimmed(lines[k]) != lines[k]
  }

  ghost function BlankNamed(lines: seq<string>): (nat, Report) -> bool {
    (k: nat, r: Report) => k < |lines| && NamesEnd(lines[k], k, r)
  }

  lemma WhitespaceReportsStep(lines: seq<string>, n: nat, p: seq<nat>) returns (q: seq<nat>)
    requires n < |lines| && Selected(n, BlankChosen(lines), BlankNamed(lines), WhitespaceReports(lines, n), p)
    ensures Selected(n + 1, BlankChosen(lines), BlankNamed(lines), WhitespaceReports(lines, n + 1), q)
  {
    var chosen, named, before := BlankChosen(lines), BlankNamed(lines), WhitespaceReports(lines, n);
    q := p;
    if chosen(n) {
      WhitespaceReportNames(lines, n);
      SelectedSnoc(n, chosen, named, before, p, WhitespaceReport(lines, n)[0]);
      assert WhitespaceReport(lines, n) == [WhitespaceReport(lines, n)[0]];
      q := p + [n];
    } else {
      SelectedSkip(n, chosen, named, before, p);
      assert before + [] == before;
    }
  }

  lemma {:induction false} WhitespaceReportsUpTo(lines: seq<string>, n: nat) returns (p: seq<nat>)
    requires n <= |lines|
    ensures Selected(n, BlankChosen(lines), BlankNamed(lines), WhitespaceReports(lines, n), p)
  {
    if n == 0 {
      SelectedNone(BlankChosen(lines), BlankNamed(lines));
      p := [];
    } else {
      var before := WhitespaceReportsUpTo(lines, n - 1);
      p := WhitespaceReportsStep(lines, n - 1, before);
    }
  }

  /** MAIN: the verbose reports of the white-space check. */
  lemma WhitespaceReportsMeaning(lines: seq<string>) returns (p: seq<nat>)
    ensures BlanksReported(lines, WhitespaceReports(lines, |lines|), p)
  {
    p := WhitespaceReportsUpTo(lines, |lines|);
    forall k | 0 <= k < |lines| ensures Trimmed(lines[k]) != lines[k] <==> !Tidy(lines[k]) {
      TrimmedIffTidy(lines[k]);
    }
  }

  lemma StripComment(core: string)
    requires IsCore(core)
    ensures Strip(core + ['\n']) == core
  {
    StripOf([], core, ['\n']);
    assert [] + core + ['\n'] == core + ['\n'];
  }

  /** A tab between the comments that switch formatting off and on is left alone; behind them it is not. */
  lemma TabBetweenComments()
    ensures var off, on, tab := "// clang-format off" + ['\n'], "// clang-format on" + ['\n'], ['\t', 'x', '\n'];
      TabsProtected([off, tab, on]) && !TabsProtected([off, on, tab]) &&
      FixTabsText(GUARDS, WriteLines([off, tab, on])) == WriteLines([off, tab, on])
  {
    var off, on, tab := "// clang-format off" + ['\n'], "// clang-format on" + ['\n'], ['\t', 'x', '\n'];
    GuardsAreValid();
    StripComment("// clang-format off");
    StripComment("// clang-format on");
    OnIsNotOff();
    TabIsNoComment(tab);
    var kept, fixed := [off, tab, on], [off, on, tab];
    assert OffBefore(kept, 0, 1);
    assert Protected(kept, 1);
    forall i | 0 <= i < |kept| && '\t' in kept[i] ensures Protected(kept, i) { assert i == 1; }
    assert IsComment(fixed[1]);
    assert !Protected(fixed, 2);
    assert '\t' in fixed[2];
    CompliantIffProtected(kept);
    assert FixedTabs(GUARDS, kept) == kept;
    ReadWrite(kept);
  }

  lemma TabIsNoComment(tab: string)
    requires tab == ['\t', 'x', '\n']
    ensures !IsComment(tab)
  {
    StripOf(['\t'], ['x'], ['\n']);
    assert ['\t'] + ['x'] + ['\n'] == tab;
    assert |Strip(tab)| == 1;
  }

  // ---------------------------------------------------------------------------
  // The two checkers
  // ---------------------------------------------------------------------------

  /** The file's lines once the first n were replaced by the fixed ones. */
  function FixedIn(lines: seq<string>, fixed: seq<string>, n: nat): (r: seq<string>)
    requires n <= |lines| == |fixed|
    ensures |r| == |lines|
  {
    if n == 0 then lines else FixedIn(lines, fixed, n - 1)[n - 1 := fixed[n - 1]]
  }

  lemma {:induction false} FixedInAt(lines: seq<string>, fixed: seq<string>, n: nat, i: nat)
    requires n <= |lines| == |fixed| && i < |lines|
    ensures FixedIn(lines, fixed, n)[i] == if i < n then fixed[i] else lines[i]
  {
    if n > 0 { FixedInAt(lines, fixed, n - 1, i); }
  }

  /** A line that needs no fix may be left alone. */
  lemma FixedInKeeps(lines: seq<string>, fixed: seq<string>, n: nat)
    requires n < |lines| == |fixed| && fixed[n] == lines[n]
    ensures FixedIn(lines, fixed, n + 1) == FixedIn(lines, fixed, n)
  {
    FixedInAt(lines, fixed, n, n);
  }

  lemma FixedInAll(lines: seq<string>, fixed: seq<string>)
    requires |lines| == |fixed|
    ensures FixedIn(lines, fixed, |lines|) == fixed
  {
    forall i | 0 <= i < |lines| ensures FixedIn(lines, fixed, |lines|)[i] == fixed[i] {
      FixedInAt(lines, fixed, |lines|, i);
    }
  }

  method CheckGuard(g: Guards, line: string, enabledBefore: bool) returns (enabled: bool, skip: bool)
    ensures enabled == EnabledAt(g, enabledBefore, line)
    ensures skip == (!enabled && !IsGuard(g, line))
  {
    enabled := enabledBefore;
    var stripped := Strip(line);
    if stripped == g.on {
      enabled := true;
    } else if stripped == g.off {
      enabled := false;
    }
    skip := !enabled && stripped != g.on && stripped != g.off;
  }

  predicate TabsCompliantIn(g: Guards, lines: seq<string>, n: nat)
    requires n <= |lines|
  {
    n == 0 || (TabsCompliantIn(g, lines, n - 1) && !LineHasTab(g, lines, n - 1))
  }

  lemma {:induction false} TabsCompliantUpTo(g: Guards, lines: seq<string>, n: nat)
    requires n <= |lines|
    ensures TabsCompliantIn(g, lines, n) <==> forall i :: 0 <= i < n ==> !LineHasTab(g, lines, i)
  {
    if n > 0 { TabsCompliantUpTo(g, lines, n - 1); }
  }

  lemma {:induction false} TabsCompliantPrefix(g: Guards, lines: seq<string>, m: nat, n: nat)
    requires m <= n <= |lines| && TabsCompliantIn(g, lines, n)
    ensures TabsCompliantIn(g, lines, m)
    decreases n
  {
    if m < n { TabsCompliantPrefix(g, lines, m, n - 1); }
  }

  /** One turn of the loop: the new guard state, and the replaced line with the tab's position. */
  method CheckTabLine(g: Guards, lines: seq<string>, i: nat, before: seq<string>, enabledBefore: bool)
    returns (fileLines: seq<string>, enabled: bool, bad: bool, report: seq<Report>)
    requires i < |lines| && enabledBefore == EnabledAfter(g, lines, i)
    requires before == FixedIn(lines, FixedTabs(g, lines), i)
    ensures enabled == EnabledAfter(g, lines, i + 1) && bad == LineHasTab(g, lines, i)
    ensures fileLines == FixedIn(lines, FixedTabs(g, lines), i + 1)
    ensures report == TabReport(g, lines, i)
  {
    FixedInAt(lines, FixedTabs(g, lines), i, i);
    var line := before[i];
    var skip;
    enabled, skip := CheckGuard(g, line, enabledBefore);
    var tabIndex := Find(line, '\t');
    fileLines, bad, report := before, !skip && tabIndex < |line|, [];
    if bad {
      fileLines := before[i := ExpandTabs(line)];
      report := [Report(i + 1, tabIndex + 1, RStrip(line))];
    } else {
      FixedInKeeps(lines, FixedTabs(g, lines), i);
    }
  }

  /** That turn with the running result. */
  method TabTurn(g: Guards, lines: seq<string>, i: nat, before: seq<string>, enabledBefore: bool,
                 compliantBefore: bool, reportsBefore: seq<Report>, verbose: bool)
    returns (fileLines: seq<string>, enabled: bool, compliant: bool, reports: seq<Report>)
    requires i < |lines| && before == FixedIn(lines, FixedTabs(g, lines), i)
    requires enabledBefore == EnabledAfter(g, lines, i)
    requires compliantBefore == TabsCompliantIn(g, lines, i)
    requires reportsBefore == if verbose then TabReports(g, lines, i) else []
    ensures fileLines == FixedIn(lines, FixedTabs(g, lines), i + 1) && enabled == EnabledAfter(g, lines, i + 1)
    ensures compliant == TabsCompliantIn(g, lines, i + 1)
    ensures reports == if verbose then TabReports(g, lines, i + 1) else []
  {
    var bad, report;
    fileLines, enabled, bad, report := CheckTabLine(g, lines, i, before, enabledBefore);
    compliant := compliantBefore && !bad;
    reports := if verbose then reportsBefore + report else reportsBefore;
  }

  /** The loop ends behind the last line, or when a first offending line was seen. */
  lemma ScanTabsEnds(g: Guards, lines: seq<string>, i: nat, fileLines: seq<string>, compliant: bool)
    requires i <= |lines| && (i == |lines| || !compliant)
    requires fileLines == FixedIn(lines, FixedTabs(g, lines), i) && compliant == TabsCompliantIn(g, lines, i)
    ensures compliant == TabsCompliantIn(g, lines, |lines|)
    ensures i == |lines| ==> fileLines == FixedTabs(g, lines)
  {
    if TabsCompliantIn(g, lines, |lines|) { TabsCompliantPrefix(g, lines, i, |lines|); }
    FixedInAll(lines, FixedTabs(g, lines));
  }

  /** The loop of the tab check. Without fix and verbose it stops at the first offending line. */
  method ScanTabs(g: Guards, lines: seq<string>, fix: bool, verbose: bool)
    returns (fileLines: seq<string>, compliant: bool, reports: seq<Report>)
    ensures compliant == TabsCompliantIn(g, lines, |lines|)
    ensures fix ==> fileLines == FixedTabs(g, lines)
    ensures reports == if verbose then TabReports(g, lines, |lines|) else []
  {
    fileLines, compliant, reports := lines, true, [];
    var enabled, i := true, 0;
    while i < |lines| && (fix || verbose || compliant)
      invariant i <= |lines| && fileLines == FixedIn(lines, FixedTabs(g, lines), i)
      invariant enabled == EnabledAfter(g, lines, i)
      invariant compliant == TabsCompliantIn(g, lines, i)
      invariant reports == if verbose then TabReports(g, lines, i) else []
    {
      fileLines, enabled, compliant, reports :=
        TabTurn(g, lines, i, fileLines, enabled, compliant, reports, verbose);
      i := i + 1;
    }
    ScanTabsEnds(g, lines, i, fileLines, compliant);
  }

  method CheckTabsFile(text: string, fix: bool, verbose: bool)
    returns (newText: string, compliant: bool, reports: seq<Report>)
    ensures compliant <==> TabsCompliant(GUARDS, ReadLines(text))
    ensures newText == if fix then FixTabsText(GUARDS, text) else text
    ensures reports == if verbose then TabReports(GUARDS, ReadLines(text), |ReadLines(text)|) else []
    ensures compliant <==> TabsProtected(ReadLines(text))
    ensures fix ==> TabsGone(text, newText)
    ensures verbose ==> exists p :: TabsReported(ReadLines(text), reports, p)
  {
    TabFixMeaning(text);
    ghost var p := TabReportsMeaning(ReadLines(text));
    var lines := ReadLines(text);
    var fileLines;
    fileLines, compliant, reports := ScanTabs(GUARDS, lines, fix, verbose);
    TabsCompliantUpTo(GUARDS, lines, |lines|);
    newText := text;
    if fix && !compliant { newText := WriteLines(fileLines); }
    if fix && compliant {
      assert FixedTabs(GUARDS, lines) == lines;
      ReadGivesLines(text);
    }
  }

  /** One turn of the loop: the replaced line with the position behind its text. */
  method CheckWhitespaceLine(lines: seq<string>, i: nat, before: seq<string>)
    returns (fileLines: seq<string>, bad: bool, report: seq<Report>)
    requires i < |lines| && before == FixedIn(lines, FixedWhitespace(lines), i)
    ensures bad == (Trimmed(lines[i]) != lines[i])
    ensures fileLines == FixedIn(lines, FixedWhitespace(lines), i + 1)
    ensures report == WhitespaceReport(lines, i)
  {
    FixedInAt(lines, FixedWhitespace(lines), i, i);
    var line := before[i];
    var lineFixed := RStrip(line) + ['\n'];
    fileLines, bad, report := before, lineFixed != line, [];
    if bad {
      fileLines := before[i := lineFixed];
      var text := ExpandTabs(RStrip(lineFixed));
      report := [Report(i + 1, |text| + 1, text)];
    } else {
      FixedInKeeps(lines, FixedWhitespace(lines), i);
    }
  }

  predicate WhitespaceCompliantIn(lines: seq<string>, n: nat)
    requires n <= |lines|
  {
    n == 0 || (WhitespaceCompliantIn(lines, n - 1) && Trimmed(lines[n - 1]) == lines[n - 1])
  }

  lemma {:induction false} WhitespaceCompliantUpTo(lines: seq<string>, n: nat)
    requires n <= |lines|
    ensures WhitespaceCompliantIn(lines, n) <==> forall i :: 0 <= i < n ==> Trimmed(lines[i]) == lines[i]
  {
    if n > 0 { WhitespaceCompliantUpTo(lines, n - 1); }
  }

  lemma {:induction false} WhitespaceCompliantPrefix(lines: seq<string>, m: nat, n: nat)
    requires m <= n <= |lines| && WhitespaceCompliantIn(lines, n)
    ensures WhitespaceCompliantIn(lines, m)
    decreases n
  {
    if m < n { WhitespaceCompliantPrefix(lines, m, n - 1); }
  }

  /** That turn with the running result. */
  method WhitespaceTurn(lines: seq<string>, i: nat, before: seq<string>, compliantBefore: bool,
                        reportsBefore: seq<Report>, verbose: bool)
    returns (fileLines: seq<string>, compliant: bool, reports: seq<Report>)
    requires i < |lines| && before == FixedIn(lines, FixedWhitespace(lines), i)
    requires compliantBefore == WhitespaceCompliantIn(lines, i)
    requires reportsBefore == if verbose then WhitespaceReports(lines, i) else []
    ensures fileLines == FixedIn(lines, FixedWhitespace(lines), i + 1)
    ensures compliant == WhitespaceCompliantIn(lines, i + 1)
    ensures reports == if verbose then WhitespaceReports(lines, i + 1) else []
  {
    var bad, report;
    fileLines, bad, report := CheckWhitespaceLine(lines, i, before);
    compliant := compliantBefore && !bad;
    reports := if verbose then reportsBefore + report else reportsBefore;
  }

  /** The loop ends behind the last line, or when a first offending line was seen. */
  lemma ScanWhitespaceEnds(lines: seq<string>, i: nat, fileLines: seq<string>, compliant: bool)
    requires i <= |lines| && (i == |lines| || !compliant)
    requires fileLines == FixedIn(lines, FixedWhitespace(lines), i) && compliant == WhitespaceCompliantIn(lines, i)
    ensures compliant == WhitespaceCompliantIn(lines, |lines|)
    ensures i == |lines| ==> fileLines == FixedWhitespace(lines)
  {
    if WhitespaceCompliantIn(lines, |lines|) { WhitespaceCompliantPrefix(lines, i, |lines|); }
    FixedInAll(lines, FixedWhitespace(lines));
  }

  /** The loop of the trailing-whitespace check. */
  method ScanWhitespace(lines: seq<string>, fix: bool, verbose: bool)
    returns (fileLines: seq<string>, compliant: bool, reports: seq<Report>)
    ensures compliant == WhitespaceCompliantIn(lines, |lines|)
    ensures fix ==> fileLines == FixedWhitespace(lines)
    ensures reports == if verbose then WhitespaceReports(lines, |lines|) else []
  {
    fileLines, compliant, reports := lines, true, [];
    var i := 0;
    while i < |lines| && (fix || verbose || compliant)
      invariant i <= |lines| && fileLines == FixedIn(lines, FixedWhitespace(lines), i)
      invariant compliant == WhitespaceCompliantIn(lines, i)
      invariant reports == if verbose then WhitespaceReports(lines, i) else []
    {
      fileLines, compliant, reports := WhitespaceTurn(lines, i, fileLines, compliant, reports, verbose);
      i := i + 1;
    }
    ScanWhitespaceEnds(lines, i, fileLines, compliant);
  }

  method CheckTrailingWhitespaceFile(text: string, fix: bool, verbose: bool)
    returns (newText: string, compliant: bool, reports: seq<Report>)
    ensures compliant <==> WhitespaceCompliant(ReadLines(text))
    ensures newText == if fix then FixWhitespaceText(text) else text
    ensures reports == if verbose then WhitespaceReports(ReadLines(text), |ReadLines(text)|) else []
    ensures compliant <==> forall i :: 0 <= i < |ReadLines(text)| ==> Tidy(ReadLines(text)[i])
    ensures fix ==> BlanksGone(text, newText)
    ensures verbose ==> exists p :: BlanksReported(ReadLines(text), reports, p)
  {
    WhitespaceFixMeaning(text);
    ghost var p := WhitespaceReportsMeaning(ReadLines(text));
    var lines := ReadLines(text);
    var fileLines;
    fileLines, compliant, reports := ScanWhitespace(lines, fix, verbose);
    WhitespaceCompliantUpTo(lines, |lines|);
    newText := text;
    if fix && !compliant { newText := WriteLines(fileLines); }
    if fix && compliant {
      assert FixedWhitespace(lines) == lines;
      ReadGivesLines(text);
    }
  }
}
